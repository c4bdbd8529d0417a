/**
 * The orchestration (`main`): take the first master file, load and clean it,
 * group the rows by EmpID and append every group to its employee's report,
 * counting the groups visited.
 */
module Pipeline {
  import opened Tables
  import opened StringOrder
  import opened Loader
  import opened Grouping
  import opened Appender

  /** Where a run stopped. */
  datatype RunStatus = NoMasterFile | MasterLoadFailed | Completed

  /** The report files after the groups of `ks`, in that order, have been appended. */
  function RunAppends(files: map<string, Workbook>, rows: seq<Row>, ks: seq<string>,
                      faults: string -> IoFaults): map<string, Workbook>
  {
    if ks == [] then files
    else
      var k := ks[|ks| - 1];
      AppendEffect(RunAppends(files, rows, ks[..|ks| - 1], faults), Group(rows, k), k, TargetSheet, faults(k)).files
  }

  /**
   * `main`. `masterFiles` stands for the directory listing of master
   * workbooks, each as reading it would turn out; `faults` says which library
   * calls raise while appending for a given EmpID.
   */
  method Run(masterFiles: seq<ReadOutcome>, store: EmployeeFiles, faults: string -> IoFaults)
    returns (status: RunStatus, processed: nat)
    requires masterFiles != [] && masterFiles[0].Read? ==> WellFormed(masterFiles[0].table)
    modifies store
    ensures status == NoMasterFile <==> masterFiles == []
    ensures masterFiles != [] && LoadAndCleanMaster(masterFiles[0]).Some? ==> status == Completed
    ensures masterFiles != [] ==>
      (status == MasterLoadFailed <==> LoadAndCleanMaster(masterFiles[0]).None?)
    ensures status != Completed ==> processed == 0 && store.files == old(store.files)
    ensures status == Completed ==>
      var rows := LoadAndCleanMaster(masterFiles[0]).value.rows;
      && processed == |Keys(rows)|
      && store.files == RunAppends(old(store.files), rows, GroupKeys(rows), faults)
  {
    if masterFiles == [] {
      return NoMasterFile, 0;
    }
    var master := LoadAndCleanMaster(masterFiles[0]);
    if master.None? {
      return MasterLoadFailed, 0;
    }
    var rows := master.value.rows;
    var keys := GroupKeys(rows);
    processed := 0;
    for i := 0 to |keys|
      invariant processed == i
      invariant store.files == RunAppends(old(store.files), rows, keys[..i], faults)
    {
      var empId := keys[i];
      RunAppendsStep(old(store.files), rows, keys, i, faults);
      var _ := store.Append(Group(rows, empId), empId, TargetSheet, faults(empId));
      processed := processed + 1;
    }
    assert keys[..|keys|] == keys;
    GroupCount(rows);
    status := Completed;
  }

  /** One more turn of the loop appends the next group. */
  lemma RunAppendsStep(files: map<string, Workbook>, rows: seq<Row>, ks: seq<string>, i: nat,
                       faults: string -> IoFaults)
    requires i < |ks|
    ensures RunAppends(files, rows, ks[..i + 1], faults) ==
      AppendEffect(RunAppends(files, rows, ks[..i], faults), Group(rows, ks[i]), ks[i], TargetSheet, faults(ks[i])).files
  {
    assert ks[..i + 1][..i] == ks[..i];
  }

  /** Appending never creates or deletes a report file. */
  lemma {:induction false} RunAppendsKeepsFiles(files: map<string, Workbook>, rows: seq<Row>,
                                                ks: seq<string>, faults: string -> IoFaults)
    ensures RunAppends(files, rows, ks, faults).Keys == files.Keys
  {
    if ks != [] {
      RunAppendsKeepsFiles(files, rows, ks[..|ks| - 1], faults);
    }
  }

  /** A file that is not the report of any visited EmpID is left as it was. */
  lemma {:induction false} RunAppendsOthers(files: map<string, Workbook>, rows: seq<Row>,
                                            ks: seq<string>, faults: string -> IoFaults, name: string)
    requires name in files
    requires forall k :: k in ks ==> FileName(k) != name
    ensures name in RunAppends(files, rows, ks, faults)
    ensures RunAppends(files, rows, ks, faults)[name] == files[name]
  {
    RunAppendsKeepsFiles(files, rows, ks, faults);
    if ks != [] {
      RunAppendsOthers(files, rows, ks[..|ks| - 1], faults, name);
      assert ks[|ks| - 1] in ks;
    }
  }

  /**
   * With distinct EmpIDs, each report ends up as one append of its own group
   * on the report as it was before the run, whatever happened to the others.
   */
  lemma {:induction false} RunAppendsEach(files: map<string, Workbook>, rows: seq<Row>,
                                          ks: seq<string>, faults: string -> IoFaults, k: string)
    requires StrictlySorted(ks)
    requires k in ks && FileName(k) in files
    ensures FileName(k) in RunAppends(files, rows, ks, faults)
    ensures RunAppends(files, rows, ks, faults)[FileName(k)] ==
      AppendToBook(files[FileName(k)], Group(rows, k), TargetSheet, faults(k)).book
  {
    RunAppendsKeepsFiles(files, rows, ks, faults);
    var init := ks[..|ks| - 1];
    var last := ks[|ks| - 1];
    assert ks == init + [last];
    RunAppendsKeepsFiles(files, rows, init, faults);
    if last == k {
      forall k' | k' in init ensures FileName(k') != FileName(k) {
        var m :| 0 <= m < |init| && init[m] == k';
        SortedDistinct(ks, m, |ks| - 1);
        if FileName(k') == FileName(k) { FileNameInjective(k', k); }
      }
      RunAppendsOthers(files, rows, init, faults, FileName(k));
    } else {
      assert k in init;
      RunAppendsEach(files, rows, init, faults, k);
      if FileName(last) == FileName(k) { FileNameInjective(last, k); }
    }
  }

  /**
   * A completed run appends each employee's rows, in source order, to that
   * employee's report: when every call succeeds and every sheet reads back,
   * each `Raw_Data` sheet becomes the old sheet followed by the group.
   */
  lemma CompletedRunAppendsGroups(files: map<string, Workbook>, rows: seq<Row>,
                                  faults: string -> IoFaults, k: string)
    requires k in Keys(rows) && FileName(k) in files && TargetSheet in files[FileName(k)]
    requires !faults(k).openFails && !faults(k).readFails && !faults(k).writeFails
    requires files[FileName(k)][TargetSheet] != []
    ensures var after := RunAppends(files, rows, GroupKeys(rows), faults);
      && FileName(k) in after && TargetSheet in after[FileName(k)]
      && after[FileName(k)][TargetSheet] == files[FileName(k)][TargetSheet] + Group(rows, k)
      && forall s :: s in files[FileName(k)] && s != TargetSheet ==>
           s in after[FileName(k)] && after[FileName(k)][s] == files[FileName(k)][s]
  {
    var book := files[FileName(k)];
    RunAppendsEach(files, rows, GroupKeys(rows), faults, k);
    AppendIsConcatenation(book, Group(rows, k), TargetSheet, faults(k));
  }
}
