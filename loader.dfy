/**
 * The master loader (`load_and_clean_master_data`): normalise the column
 * labels, rename `Employee_ID` to `EmpID`, normalise every EmpID value and
 * keep exactly the four required columns, or fail as a whole.
 */
module Loader {
  import opened Text
  import opened Tables

  /** The columns the loader keeps, in this order. */
  const Required: seq<string> := ["EmpID", "Date", "Pay_Component", "Amount"]

  /** What reading the first sheet of the master file gives. */
  datatype ReadOutcome = Read(table: Table) | FileNotFound | ParseError

  /** One column label after the strip/replace and the rename. */
  function CleanColumnName(c: string): (r: string)
    ensures ' ' !in r && Trimmed(r)
  {
    var n := NormalizeColumnName(c);
    if n == "Employee_ID" then "EmpID" else n
  }

  /** `df.columns` after the label rewrite and the rename. */
  function CleanColumns(columns: seq<string>): (r: seq<string>)
    ensures |r| == |columns|
  {
    seq(|columns|, k requires 0 <= k < |columns| => CleanColumnName(columns[k]))
  }

  /**
   * Each label is cleaned where it stands, so the order is kept; after
   * cleaning, no label is `Employee_ID`, and none has a space or whitespace
   * at its ends.
   */
  lemma CleanColumnsLabels(columns: seq<string>)
    ensures forall k :: 0 <= k < |columns| ==> CleanColumns(columns)[k] == CleanColumnName(columns[k])
    ensures "Employee_ID" !in CleanColumns(columns)
    ensures forall k :: 0 <= k < |columns| ==>
      ' ' !in CleanColumns(columns)[k] && Trimmed(CleanColumns(columns)[k])
  {
  }

  /** Every required column is present. */
  predicate HasRequired(columns: seq<string>) {
    "EmpID" in columns && "Date" in columns && "Pay_Component" in columns && "Amount" in columns
  }

  /** A cleaned EmpID cell: a string that is upper case and trimmed. */
  predicate NormalId(c: Cell) {
    c.Text? && Trimmed(c.text) && IsUpper(c.text)
  }

  /** The EmpID cell rewrite: `astype(str).str.upper().str.strip()`. */
  function CleanIdCell(c: Cell): (r: Cell)
    ensures NormalId(r)
  {
    Text(NormalizeEmpId(AsStr(c)))
  }

  /** `df[names]`: the columns `names`, in that order, each taken at its first occurrence. */
  function Project(columns: seq<string>, rows: seq<Row>, names: seq<string>): (r: Table)
    requires forall i :: 0 <= i < |rows| ==> |rows[i]| == |columns|
    requires forall j :: 0 <= j < |names| ==> names[j] in columns
    ensures r.columns == names && |r.rows| == |rows| && WellFormed(r)
    ensures forall i, j :: 0 <= i < |rows| && 0 <= j < |names| ==>
      r.rows[i][j] == rows[i][IndexOf(columns, names[j])]
  {
    Table(names, seq(|rows|, i requires 0 <= i < |rows| =>
      seq(|names|, j requires 0 <= j < |names| => rows[i][IndexOf(columns, names[j])])))
  }

  /** The EmpID rewrite: the cell in column `e` of every row is replaced by its cleaned EmpID. */
  function CleanIds(rows: seq<Row>, e: nat): (r: seq<Row>)
    requires forall i :: 0 <= i < |rows| ==> e < |rows[i]|
    ensures |r| == |rows|
    ensures forall i :: 0 <= i < |rows| ==>
      && |r[i]| == |rows[i]|
      && r[i][e] == CleanIdCell(rows[i][e])
      && forall k :: 0 <= k < |rows[i]| && k != e ==> r[i][k] == rows[i][k]
  {
    seq(|rows|, i requires 0 <= i < |rows| => rows[i][e := CleanIdCell(rows[i][e])])
  }

  lemma RequiredPresent(columns: seq<string>)
    requires HasRequired(columns)
    ensures forall j :: 0 <= j < |Required| ==> Required[j] in columns
  {
  }

  /** The label rewrite, the rename, the EmpID rewrite and the projection, on a frame already read. */
  function CleanMaster(t: Table): (r: Option<Table>)
    requires WellFormed(t)
    ensures r.Some? <==> HasRequired(CleanColumns(t.columns))
    ensures r.Some? ==> r.value.columns == Required && WellFormed(r.value)
    ensures r.Some? ==> |r.value.rows| == |t.rows|
    ensures r.Some? ==> forall i :: 0 <= i < |r.value.rows| ==> NormalId(r.value.rows[i][0])
  {
    var columns := CleanColumns(t.columns);
    if "EmpID" !in columns then None
    else
      var e := IndexOf(columns, "EmpID");
      var rows := CleanIds(t.rows, e);
      if !HasRequired(columns) then None
      else
        RequiredPresent(columns);
        var p := Project(columns, rows, Required);
        assert IndexOf(columns, Required[0]) == e;
        Some(p)
  }

  /** `load_and_clean_master_data`: `None` on any failure. */
  function LoadAndCleanMaster(read: ReadOutcome): (r: Option<Table>)
    requires read.Read? ==> WellFormed(read.table)
    ensures r.Some? <==> read.Read? && HasRequired(CleanColumns(read.table.columns))
    ensures r.Some? ==> r.value.columns == Required && |r.value.rows| == |read.table.rows|
  {
    match read
    case Read(t) => CleanMaster(t)
    case FileNotFound => None
    case ParseError => None
  }

  /** A label ends up as `EmpID` exactly when it normalises to `Employee_ID` or `EmpID`. */
  lemma CleanColumnNameEmpId(c: string)
    ensures CleanColumnName(c) == "EmpID" <==>
      NormalizeColumnName(c) == "Employee_ID" || NormalizeColumnName(c) == "EmpID"
    ensures NormalizeColumnName(c) != "Employee_ID" ==> CleanColumnName(c) == NormalizeColumnName(c)
  {
  }

  /** Cleaning a cleaned label changes nothing. */
  lemma CleanColumnNameIdempotent(c: string)
    ensures CleanColumnName(CleanColumnName(c)) == CleanColumnName(c)
  {
    var r := CleanColumnName(c);
    NormalizeColumnNameFixesNormal(r);
    assert r != "Employee_ID" by {
      if NormalizeColumnName(c) == "Employee_ID" {
        assert r == "EmpID";
      }
    }
  }

  /** A label that is `Employee_ID` once its inner spaces are replaced, padded with blanks, is renamed. */
  lemma PaddedRenamed(t: string)
    requires Trimmed(t) && t != [] && ReplaceSpaces(t) == "Employee_ID"
    ensures CleanColumnName([' '] + t + [' ']) == "EmpID"
  {
    StripPadded(t);
  }

  /** The alternate spelling with spaces around and inside it is recognised. */
  // The label is a parameter so that the verifier does not unroll `Strip` on the literal.
  lemma SpacedEmployeeIdRenamed(c: string)
    requires c == " Employee ID "
    ensures CleanColumnName(c) == "EmpID"
  {
    var inner := "Employee ID";
    EmployeeIdSpacesReplaced();
    assert c == [' '] + inner + [' '];
    PaddedRenamed(inner);
  }

  /** The one space of the alternate spelling becomes an underscore. */
  lemma EmployeeIdSpacesReplaced()
    ensures ReplaceSpaces("Employee ID") == "Employee_ID"
  {
    var r := ReplaceSpaces("Employee ID");
    assert forall k :: 0 <= k < |r| ==> r[k] == "Employee_ID"[k];
  }

  /**
   * Row `i` of the cleaned table is row `i` of the source: its EmpID cell
   * normalised, the other three cells copied from the first source column
   * whose cleaned label is the required one.
   */
  lemma CleanMasterRows(t: Table, i: nat, j: nat)
    requires WellFormed(t) && CleanMaster(t).Some?
    requires i < |t.rows| && j < |Required|
    ensures var columns := CleanColumns(t.columns);
      var src := t.rows[i][IndexOf(columns, Required[j])];
      CleanMaster(t).value.rows[i][j] == if j == 0 then CleanIdCell(src) else src
  {
    var columns := CleanColumns(t.columns);
    var e := IndexOf(columns, "EmpID");
    var k := IndexOf(columns, Required[j]);
    if j != 0 {
      assert columns[k] == Required[j] != "EmpID";
    }
  }
}
