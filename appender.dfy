/**
 * The employee appender (`append_to_employee_file`): find the employee's
 * report workbook, and write one group of rows into its `Raw_Data` sheet
 * below the rows already there, without a header and without touching the
 * workbook's other sheets or any other file.
 */
module Appender {
  import opened Tables

  /** A worksheet as rows of cells; row 0 is the header row. */
  type Sheet = seq<Row>

  /** A workbook: its sheets by name. */
  type Workbook = map<string, Sheet>

  /** The sheet the rows are appended to when the caller names none. */
  const TargetSheet: string := "Raw_Data"

  /**
   * Which library calls raise for one employee: opening the workbook,
   * reading the target sheet back as a frame, or writing and saving.
   */
  datatype IoFaults = IoFaults(openFails: bool, readFails: bool, writeFails: bool)

  /** How one append ended; each case is one of the script's log lines. */
  datatype Outcome =
    | Appended(startRow: nat, count: nat)
    | SkippedMissingFile
    | SkippedMissingSheet
    | Failed

  function Max(a: nat, b: nat): nat {
    if a < b then b else a
  }

  /** The report file of an employee. */
  function FileName(empId: string): (name: string)
    ensures |name| == |empId| + 16
    ensures name[..4] == "EMP_" && name[|name| - 12..] == "_Report.xlsx"
    ensures name[4..|name| - 12] == empId
  {
    "EMP_" + empId + "_Report.xlsx"
  }

  /** Different employees never share a report file. */
  lemma FileNameInjective(a: string, b: string)
    requires FileName(a) == FileName(b)
    ensures a == b
  {
    var n := FileName(a);
    assert a == n[4..|n| - 12];
    assert b == FileName(b)[4..|n| - 12];
  }

  /** `len(pd.read_excel(sheet))`: the rows below the header. */
  function DataRowCount(sheet: Sheet): (n: nat)
    ensures n < |sheet| || (n == 0 && sheet == [])
    ensures sheet != [] ==> n + 1 == |sheet|
  {
    if |sheet| == 0 then 0 else |sheet| - 1
  }

  /** The 0-based row at which writing starts: below the rows read back, or row 1 when the read fails. */
  function StartRow(sheet: Sheet, readFails: bool): (r: nat)
    ensures r >= 1
    ensures readFails ==> r == 1
    ensures !readFails ==> r == Max(|sheet|, 1)
  {
    if readFails then 1 else DataRowCount(sheet) + 1
  }

  /** Writing the cells of `written` over a row: the old row's cells past them stay. */
  function Overlay(prior: Row, written: Row): (r: Row)
    ensures |r| == Max(|prior|, |written|)
    ensures r[..|written|] == written
    ensures forall c :: |written| <= c < |prior| ==> r[c] == prior[c]
  {
    written + if |prior| > |written| then prior[|written|..] else []
  }

  /**
   * `to_excel(startrow=start, header=False)` into an existing sheet: `rows[j]`
   * is written at row `start + j`; every other row keeps its cells, and rows
   * between the old end and `start` stay blank.
   */
  function WriteAt(sheet: Sheet, start: nat, rows: seq<Row>): (r: Sheet)
    ensures |r| == if rows == [] then |sheet| else Max(|sheet|, start + |rows|)
    ensures forall i :: 0 <= i < |r| && !(start <= i < start + |rows|) ==>
      r[i] == if i < |sheet| then sheet[i] else []
    ensures forall j :: 0 <= j < |rows| ==>
      |rows[j]| <= |r[start + j]| && r[start + j][..|rows[j]|] == rows[j]
    ensures forall j :: 0 <= j < |rows| ==>
      |r[start + j]| == Max(if start + j < |sheet| then |sheet[start + j]| else 0, |rows[j]|)
    ensures forall i, c :: start <= i < start + |rows| && i < |sheet| && |rows[i - start]| <= c < |sheet[i]| ==>
      c < |r[i]| && r[i][c] == sheet[i][c]
  {
    var n := if rows == [] then |sheet| else Max(|sheet|, start + |rows|);
    var r := seq(n, i requires 0 <= i < n =>
      var prior := if i < |sheet| then sheet[i] else [];
      if start <= i < start + |rows| then Overlay(prior, rows[i - start]) else prior);
    forall j | 0 <= j < |rows|
      ensures r[start + j] == Overlay(if start + j < |sheet| then sheet[start + j] else [], rows[j])
    {
    }
    r
  }

  /** Writing right after the last row is concatenation. */
  lemma WriteAtEnd(sheet: Sheet, rows: seq<Row>)
    ensures WriteAt(sheet, |sheet|, rows) == sheet + rows
  {
    var r := WriteAt(sheet, |sheet|, rows);
    forall i | 0 <= i < |r| ensures r[i] == (sheet + rows)[i] {
      if i >= |sheet| {
        var j := i - |sheet|;
        assert r[i] == Overlay([], rows[j]);
        assert Overlay([], rows[j]) == rows[j] + [];
      }
    }
  }

  datatype BookResult = BookResult(book: Workbook, outcome: Outcome)

  /** The append on the workbook of an existing report file: open, check the sheet, read back, write. */
  function AppendToBook(book: Workbook, group: seq<Row>, sheetName: string, io: IoFaults): (r: BookResult)
    ensures r.book.Keys == book.Keys
    ensures forall s :: s in book && s != sheetName ==> r.book[s] == book[s]
    ensures r.outcome.Appended? <==> !io.openFails && sheetName in book && !io.writeFails
    ensures !r.outcome.Appended? ==> r.book == book
    ensures !io.openFails && sheetName !in book ==> r.outcome == SkippedMissingSheet
    ensures io.openFails ==> r.outcome == Failed
    ensures !io.openFails && sheetName in book && io.writeFails ==> r.outcome == Failed
    ensures r.outcome.Appended? ==>
      && r.outcome.startRow == StartRow(book[sheetName], io.readFails)
      && r.outcome.count == |group|
      && r.book[sheetName] == WriteAt(book[sheetName], r.outcome.startRow, group)
  {
    if io.openFails then BookResult(book, Failed)
    else if sheetName !in book then BookResult(book, SkippedMissingSheet)
    else
      var sheet := book[sheetName];
      var start := StartRow(sheet, io.readFails);
      if io.writeFails then BookResult(book, Failed)
      else BookResult(book[sheetName := WriteAt(sheet, start, group)], Appended(start, |group|))
  }

  /** Writing from row 1 into a sheet without a header leaves a blank row 0 above the rows. */
  lemma WriteAtEmpty(rows: seq<Row>)
    requires rows != []
    ensures WriteAt([], 1, rows) == [[]] + rows
  {
    var r := WriteAt([], 1, rows);
    forall i | 0 <= i < |r| ensures r[i] == ([[]] + rows)[i] {
      if i >= 1 {
        var j := i - 1;
        assert |r[1 + j]| == |rows[j]| && r[1 + j][..|rows[j]|] == rows[j];
      }
    }
  }

  /**
   * When the sheet reads back, the new rows land right under the old ones:
   * the sheet grows by exactly the group and nothing already there changes.
   * A sheet without even a header row gets a blank one first.
   */
  lemma AppendIsConcatenation(book: Workbook, group: seq<Row>, sheetName: string, io: IoFaults)
    requires !io.readFails
    requires AppendToBook(book, group, sheetName, io).outcome.Appended?
    ensures var sheet := book[sheetName];
      AppendToBook(book, group, sheetName, io).book[sheetName] ==
        (if sheet == [] && group != [] then [[]] else sheet) + group
  {
    var sheet := book[sheetName];
    if sheet == [] && group != [] {
      WriteAtEmpty(group);
    } else {
      WriteAtEnd(sheet, group);
    }
  }

  /**
   * When reading the sheet back fails, writing starts at row 1 whatever the
   * sheet holds: the first data row's leading cells are replaced.
   */
  lemma ReadFailureOverwrites(book: Workbook, group: seq<Row>, sheetName: string, io: IoFaults)
    requires io.readFails && group != []
    requires AppendToBook(book, group, sheetName, io).outcome.Appended?
    ensures var r := AppendToBook(book, group, sheetName, io).book[sheetName];
      |r| > 1 && r[1][..|group[0]|] == group[0]
  {
  }

  datatype FilesResult = FilesResult(files: map<string, Workbook>, outcome: Outcome)

  /** `append_to_employee_file` on the directory of report files. */
  function AppendEffect(files: map<string, Workbook>, group: seq<Row>, empId: string,
                        sheetName: string, io: IoFaults): (r: FilesResult)
    ensures r.files.Keys == files.Keys
    ensures forall n :: n in files && n != FileName(empId) ==> r.files[n] == files[n]
    ensures FileName(empId) !in files ==> r == FilesResult(files, SkippedMissingFile)
    ensures FileName(empId) in files ==>
      var b := AppendToBook(files[FileName(empId)], group, sheetName, io);
      r.files[FileName(empId)] == b.book && r.outcome == b.outcome
  {
    var name := FileName(empId);
    if name !in files then FilesResult(files, SkippedMissingFile)
    else
      var b := AppendToBook(files[name], group, sheetName, io);
      FilesResult(files[name := b.book], b.outcome)
  }

  /** The employee report files, by file name, as they are on disk. */
  class EmployeeFiles {
    var files: map<string, Workbook>

    constructor (initial: map<string, Workbook>)
      ensures files == initial
    {
      files := initial;
    }

    /** `append_to_employee_file(group, empId, sheetName)`. */
    method Append(group: seq<Row>, empId: string, sheetName: string, io: IoFaults)
      returns (outcome: Outcome)
      modifies this
      ensures FilesResult(files, outcome) == AppendEffect(old(files), group, empId, sheetName, io)
    {
      var name := FileName(empId);
      if name !in files {
        return SkippedMissingFile;
      }
      if io.openFails {
        return Failed;
      }
      var book := files[name];
      if sheetName !in book {
        return SkippedMissingSheet;
      }
      var start: nat;
      if io.readFails {
        start := 1;
      } else {
        start := DataRowCount(book[sheetName]) + 1;
      }
      if io.writeFails {
        return Failed;
      }
      files := files[name := book[sheetName := WriteAt(book[sheetName], start, group)]];
      outcome := Appended(start, |group|);
    }
  }
}
