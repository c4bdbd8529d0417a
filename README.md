# Payroll workbook automation, modelled in Dafny

The script `automation_script.py` is a batch job. It reads one master
spreadsheet of payroll rows, cleans it, groups the rows by employee id
(EmpID) and appends each group to the `Raw_Data` sheet of that employee's
existing report workbook `EMP_<EmpID>_Report.xlsx`.

This project models the three parts of that job which have behaviour worth
stating. Spreadsheets are plain values here: a row is a sequence of opaque
cells, a sheet a sequence of rows (row 0 is the header), a workbook a map
from sheet names to sheets, and the employee-files directory a map from file
names to workbooks.

- `text.dfy` (module `Text`): Python's `str.strip`, `str.upper` and
  `str.replace(' ', '_')`, as used on column labels and EmpID values.
- `order.dfy` (module `StringOrder`): Python's `<` on strings. This is the
  order in which `groupby` hands out its keys.
- `table.dfy` (module `Tables`): cells, rows, frames and `astype(str)`.
- `loader.dfy` (module `Loader`): `load_and_clean_master_data`. It normalises
  the labels, renames `Employee_ID`, normalises the EmpIDs and projects the
  frame onto `EmpID, Date, Pay_Component, Amount`. The result is all or
  nothing.
- `grouping.dfy` (module `Grouping`): `groupby('EmpID')`. The keys come out
  ascending, and each group keeps its rows in source order.
- `appender.dfy` (module `Appender`): `append_to_employee_file`. It covers
  the file name, the two skip rules, the start-row computation and the offset
  write. The class `EmployeeFiles` holds the report files and updates them in
  place.
- `pipeline.dfy` (module `Pipeline`): `main`. It picks the master file, stops
  early on failure, and loops over the groups while counting them.

Two choices follow what the code does:

- Groups are visited in ascending EmpID order, because pandas `groupby`
  sorts its keys by default. The order in which EmpIDs first appear is not
  used.
- An EmpID is not required to be non-empty, because the code never checks
  it. `read_excel` reads an empty cell as NaN, which becomes the string
  `"NAN"`. A cell holding only whitespace becomes `""`.

## Model

| member | source | states |
|---|---|---|
| `Text.IsWhitespace` | automation_script.py:32-34 | the characters `str.isspace` accepts within Latin-1: none above U+00A0 and no printable ASCII character |
| `Text.SkipStart` | automation_script.py:32 | the left cut of a strip is the first position that is not whitespace; everything before it is whitespace |
| `Text.SkipEnd` | automation_script.py:32 | the right cut of a strip is just after the last character that is not whitespace; everything after it is whitespace |
| `Text.Strip` | automation_script.py:32-34 | the result has no whitespace at either end and is a slice of the input with only whitespace cut off on both sides |
| `Text.StripTrimmed` | automation_script.py:32-34 | stripping a string with no whitespace at its ends gives the same string |
| `Text.StripPadded` | automation_script.py:32 | a trimmed label with one blank on each side strips back to itself |
| `Text.StripIdempotent` | automation_script.py:32-34 | stripping twice is the same as stripping once |
| `Text.ReplaceSpacesIdempotent` | automation_script.py:32 | replacing spaces twice is the same as replacing them once |
| `Text.ReplaceSpaces` | automation_script.py:32 | `replace(' ', '_')` keeps the length, turns every space into `_`, leaves every other character as it was, and leaves no space |
| `Text.NormalizeColumnName` | automation_script.py:32 | a normalised column label contains no space and has no whitespace at either end |
| `Text.NormalizeColumnNameFixesNormal` | automation_script.py:32 | a label with no space and no whitespace at its ends is already normal |
| `Text.NormalizeColumnNameIdempotent` | automation_script.py:32 | normalising a label twice gives the same result as normalising it once |
| `Text.UpperChar` | automation_script.py:34 | upper-casing keeps whitespace as whitespace and leaves no lower-case ASCII letter |
| `Text.Upper` | automation_script.py:34 | `str.upper()` keeps the length and upper-cases each character where it stands |
| `Text.UpperIsUpper` | automation_script.py:34 | the result of `str.upper()` is its own upper case |
| `Text.UpperOfUpper` | automation_script.py:34 | upper-casing a string that is already upper case changes nothing |
| `Text.StripKeepsUpper` | automation_script.py:34 | stripping an upper-case string leaves it upper case |
| `Text.NormalizeEmpId` | automation_script.py:34 | a normalised EmpID is upper case and has no whitespace at either end |
| `Text.NormalizeEmpIdIdempotent` | automation_script.py:34 | normalising an EmpID twice gives the same result as normalising it once |
| `Text.NormalizeEmpIdFixesNormal` | automation_script.py:34 | an EmpID that is already upper case and trimmed is left unchanged |
| `StringOrder.Less` | automation_script.py:121 | Python's `<` on strings, code point by code point with a proper prefix first: nothing sorts before the empty string, and the first characters of two ordered strings are in order |
| `StringOrder.LessIrreflexive` | automation_script.py:121 | no key sorts before itself |
| `StringOrder.LessTransitive` | automation_script.py:121 | the key order is transitive |
| `StringOrder.LessTotal` | automation_script.py:121 | any two different keys are ordered one way or the other |
| `StringOrder.LessAsymmetric` | automation_script.py:121 | two keys are never each before the other |
| `StringOrder.Insert` | automation_script.py:121 | adding a key to an ascending duplicate-free key list keeps it ascending and duplicate-free, and adds exactly that key |
| `StringOrder.SortedCardinality` | automation_script.py:121-128 | an ascending key list has as many entries as it has distinct keys |
| `Tables.IndexOf` | automation_script.py:38 | a column is found at the first position that carries its label |
| `Loader.CleanColumns` | automation_script.py:32-33 | the cleaned `df.columns` has one label per original label; `Loader.CleanColumnsLabels` states which |
| `Loader.CleanColumnsLabels` | automation_script.py:32-33 | label k of the cleaned `df.columns` is label k of the original with the rewrite and the rename applied, so each label is cleaned in place and the order is kept; after cleaning, no label is `Employee_ID`, and no label has a space or whitespace at either end |
| `Loader.CleanColumnName` | automation_script.py:32-33 | a cleaned label contains no space and has no whitespace at either end |
| `Loader.CleanColumnNameEmpId` | automation_script.py:32-33 | a label becomes `EmpID` exactly when it normalises to `Employee_ID` or `EmpID`; every other label keeps its normalised form |
| `Loader.CleanColumnNameIdempotent` | automation_script.py:32-33 | cleaning an already cleaned label changes nothing |
| `Loader.PaddedRenamed` | automation_script.py:32-33 | a trimmed label that reads `Employee_ID` once its spaces are replaced is renamed to `EmpID` even with a blank on each side |
| `Loader.EmployeeIdSpacesReplaced` | automation_script.py:32 | replacing the space in `Employee ID` gives `Employee_ID` |
| `Loader.SpacedEmployeeIdRenamed` | automation_script.py:32-33 | the label `" Employee ID "` is renamed to `EmpID` |
| `Loader.CleanIdCell` | automation_script.py:34 | a cleaned EmpID cell, taken through `astype(str)` (`Tables.AsStr`), then upper-cased and stripped, is a string that is upper case and has no whitespace at either end |
| `Loader.CleanIds` | automation_script.py:34 | only the EmpID cell of each row is replaced, by its cleaned form; every other cell and the row count stay as they were |
| `Loader.Project` | automation_script.py:37-38 | the projection has exactly the requested columns, in order, and one row per source row; each cell comes from the first source column with that label |
| `Loader.CleanMaster` | automation_script.py:31-41 | cleaning succeeds exactly when all four required columns are present after normalisation; on success the columns are exactly `EmpID, Date, Pay_Component, Amount`, the row count is kept, and every EmpID is normalised |
| `Loader.LoadAndCleanMaster` | automation_script.py:24-48 | the load gives a table exactly when the file could be read and has all four required columns; a missing or unreadable file gives `None` |
| `Loader.CleanMasterRows` | automation_script.py:32-38 | row `i` of the result comes from row `i` of the source: its normalised EmpID, then `Date`, `Pay_Component` and `Amount` copied unchanged |
| `Grouping.GroupKeys` | automation_script.py:121-126 | the group keys are strictly ascending and are exactly the EmpIDs that occur in the rows |
| `Grouping.Group` | automation_script.py:121-126 | a group holds exactly the rows whose EmpID is its key |
| `Grouping.Positions` | automation_script.py:121-126 | the positions of a key are ascending and are exactly the indices of the rows with that key |
| `Grouping.GroupInSourceOrder` | automation_script.py:121-126 | a group is the rows at its key's positions, in source order |
| `Grouping.RowInOneGroup` | automation_script.py:121-126 | every row's EmpID is a group key, and the row belongs to that key's group and to no other |
| `Grouping.GroupSizesSum` | automation_script.py:121-126 | the group sizes add up to the total row count |
| `Grouping.SumSizesCover` | automation_script.py:121-126 | over distinct keys that cover every row, the group sizes add up to the row count |
| `Grouping.GroupNonEmpty` | automation_script.py:121-126 | every group has at least one row |
| `Grouping.GroupCount` | automation_script.py:121-128 | there are as many groups as there are distinct EmpIDs |
| `Appender.FileName` | automation_script.py:54 | the target name is `EMP_`, then exactly the EmpID, then `_Report.xlsx` |
| `Appender.FileNameInjective` | automation_script.py:54-55 | two different EmpIDs never share a report file |
| `Appender.DataRowCount` | automation_script.py:78-80 | the existing data rows are the sheet's rows below the header: one fewer than the sheet's rows, and none for an empty sheet |
| `Appender.StartRow` | automation_script.py:77-83 | writing starts at row `len(data rows) + 1`, which is right after the last existing row; if reading the sheet fails it starts at row 1; it is never the header row |
| `Appender.Overlay` | automation_script.py:87-93 | a written row's cells replace the old ones; old cells past its width stay |
| `Appender.WriteAt` | automation_script.py:87-93 | the new rows occupy rows `start .. start+n-1` and no header is written; each such row is the written cells followed by the old cells past their width, and no more; every other row keeps its content; rows between the old end and `start` are blank |
| `Appender.WriteAtEnd` | automation_script.py:86-93 | writing at the row after the last one gives the old sheet followed by the new rows |
| `Appender.WriteAtEmpty` | automation_script.py:82-93 | writing from row 1 into a sheet with no rows gives a blank row 0 followed by the new rows |
| `Appender.AppendToBook` | automation_script.py:63-99 | no sheet is created or removed, and other sheets are untouched; a missing target sheet means a skip and no change; a failed open or write changes nothing and reports `Failed`; otherwise the target sheet gets the offset write at the computed start row |
| `Appender.AppendIsConcatenation` | automation_script.py:77-93 | when the sheet reads back, the new sheet is the old sheet followed by the group, so earlier rows are kept (a sheet with no rows gets a blank row 0 first) |
| `Appender.ReadFailureOverwrites` | automation_script.py:81-83 | when reading the sheet fails, the group's first row is written over row 1, whatever the sheet held there |
| `Appender.AppendEffect` | automation_script.py:51-99 | no report file is created or removed; every other file is untouched; a missing report file means a skip and no change; an existing one goes through the workbook append |
| `Appender.EmployeeFiles.Append` | automation_script.py:51-99 | the files and the outcome after the call are those of the workbook append applied to the files before it |
| `Pipeline.Run` | automation_script.py:103-131 | the run stops with nothing appended exactly when there is no master file or the load fails; whenever the master loads, the run completes: it appends every group in ascending key order (the effect `Pipeline.RunAppends` gives), and `total_files_processed` equals the number of distinct EmpIDs whatever each append did |
| `Pipeline.RunAppendsStep` | automation_script.py:126-128 | one more turn of the loop applies the append of the next key's group to the files so far |
| `Pipeline.RunAppendsKeepsFiles` | automation_script.py:59-61 | a run never creates or deletes a report file, so a missing report stays missing |
| `Pipeline.RunAppendsOthers` | automation_script.py:121-128 | a file that is not the report of a visited EmpID is left as it was |
| `Pipeline.RunAppendsEach` | automation_script.py:121-128 | each report ends up as one append of its own group onto the report as it was before the run |
| `Pipeline.CompletedRunAppendsGroups` | automation_script.py:121-128 | when the report and a non-empty `Raw_Data` sheet exist and nothing fails, each employee's `Raw_Data` sheet becomes the old sheet followed by that employee's rows in source order; the workbook's other sheets are unchanged |

## Left out

- Logging (the log file, the console handler and every log call) is left out. Logs are never read back. The `Outcome` of an append shows which log line the script emits.
- Filesystem access is not modelled: `Path`, `glob`, `exists`, `mkdir`, reading the spreadsheets, and saving and closing files. The directory listing is a sequence of read outcomes, and index 0 is used. The employee directory is a map from file names to workbooks.
- Exceptions raised by library calls are inputs, not modelled behaviour: a failed `load_workbook`, a failed `read_excel` of the target sheet, and a failed `ExcelWriter` creation or write. The model assumes that a failed write leaves the file as it was.
- The `pd.ExcelWriter(target_path, engine='openpyxl')` and `writer.book = book` mechanics (automation_script.py:71-72) are not modelled, because they depend on the pandas version. In recent pandas, creating the writer opens the report in write mode and empties it before the sheet is read back, and assigning `writer.book` raises. Only the intended offset write into the existing sheet is modelled, with the read-back seeing the sheet as it was.
- Cell types, date parsing and numeric `Amount` values are not modelled. A non-string cell is opaque and known only through the text `str()` gives for it.
- `Text.IsWhitespace`: only covers Python's `str.isspace` within Latin-1. Other Unicode spaces are not recognised.
- `Text.UpperChar`: only upper-cases ASCII letters. Python's full Unicode upper-casing, including length-changing cases such as `ß`, is not modelled.
- `Tables.IndexOf`: duplicate column labels are not modelled. This includes a frame holding both `Employee_ID` and `EmpID`. The model takes the first column with a label, while pandas selects every duplicate. In particular, when the frame holds both labels, `df['EmpID']` is a frame rather than a column, `.str` raises, and the source's load returns `None`; the model's `CleanMaster` succeeds instead, using the first `EmpID` column.
- `Appender.DataRowCount`: does not model how `read_excel` treats blank rows inside or after the data. Every row below the header counts as data.
- The `__main__` block is left out: creating the directories and the console message.
