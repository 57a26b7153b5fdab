/**
 * The per-document run-information record: which folder is snapshotted, the
 * document's identifier, and the branch names given to the snapshot service.
 */
module DocRunInfo {
  import opened Wrappers
  import opened Config

  const BranchPrefix := "DOC"

  /** The two values `runMode` may take. */
  datatype RunMode = CreateBaseline | CompareReleaseWithBaseline

  function ModeName(m: RunMode): string {
    match m
    case CreateBaseline => "create-baseline"
    case CompareReleaseWithBaseline => "compare-release-with-baseline"
  }

  /** Recognises the `runMode` value of the run-description file. */
  function ParseRunMode(s: string): (r: Option<RunMode>)
    ensures r.Some? ==> ModeName(r.value) == s
    ensures r.None? ==> forall m :: ModeName(m) != s
  {
    if s == ModeName(CreateBaseline) then Some(CreateBaseline)
    else if s == ModeName(CompareReleaseWithBaseline) then Some(CompareReleaseWithBaseline)
    else None
  }

  /** Every mode's name is recognised as that mode. */
  lemma ParseRunModeRoundTrip(m: RunMode)
    ensures ParseRunMode(ModeName(m)) == Some(m)
  {
  }

  /** Why the script stops instead of producing a record. */
  datatype RunError =
    | InvalidRunMode(mode: string)
    | MissingPageList(doc: string)

  datatype PageLists = PageLists(includePages: seq<int>, excludePages: seq<int>)

  datatype RunInfo = RunInfo(
    runMode: string,
    baselineDir: string,
    releaseDir: string,
    pdfDocId: string,
    projectFolder: string,
    pdfFileName: string,
    pdfPageCount: nat,
    includePages: seq<int>,
    excludePages: seq<int>,
    percyBranch: string,
    percyTargetBranch: string,
    finalWorkingDir: string)

  /** `DOC_<project>_<dir>_<file>`: the identifier of one PDF in one folder. */
  function BranchId(project: string, dir: string, file: string): string {
    BranchPrefix + "_" + project + "_" + dir + "_" + file
  }

  /** For one project and folder, distinct files get distinct identifiers. */
  lemma BranchIdInjectiveOnFile(project: string, dir: string, file1: string, file2: string)
    ensures BranchId(project, dir, file1) == BranchId(project, dir, file2) <==> file1 == file2
  {
    var prefix := BranchPrefix + "_" + project + "_" + dir + "_";
    assert BranchId(project, dir, file1) == prefix + file1;
    assert BranchId(project, dir, file2) == prefix + file2;
    if prefix + file1 == prefix + file2 {
      assert file1 == (prefix + file1)[|prefix|..];
      assert file2 == (prefix + file2)[|prefix|..];
    }
  }

  /** For one project and file, distinct folders get distinct identifiers. */
  lemma BranchIdInjectiveOnDir(project: string, dir1: string, dir2: string, file: string)
    ensures BranchId(project, dir1, file) == BranchId(project, dir2, file) <==> dir1 == dir2
  {
    var head := BranchPrefix + "_" + project + "_";
    var tail := "_" + file;
    assert BranchId(project, dir1, file) == head + dir1 + tail;
    assert BranchId(project, dir2, file) == head + dir2 + tail;
    if head + dir1 + tail == head + dir2 + tail {
      assert |dir1| == |dir2|;
      assert dir1 == (head + dir1 + tail)[|head|..|head| + |dir1|];
      assert dir2 == (head + dir2 + tail)[|head|..|head| + |dir2|];
    }
  }

  /** The identifier does not determine project, folder and file on its own: the
      separator `_` may also occur inside the names. */
  lemma BranchIdAmbiguous()
    ensures BranchId("a_b", "c", "d.pdf") == BranchId("a", "b_c", "d.pdf")
  {
  }

  // ---------------------------------------------------------------------------
  // Page lists of a document
  // ---------------------------------------------------------------------------

  /** The page lists as the script reads them: both empty for a file without a
      special configuration, otherwise the lists of its entry; an entry that lacks
      either list makes the later `length` read throw. */
  function PageListsAsWritten(special: map<string, SpecialPages>, file: string): (r: Result<PageLists, RunError>)
    ensures file !in special ==> r == Ok(PageLists([], []))
    ensures r.Err? <==> file in special && (special[file].includePages.None? || special[file].excludePages.None?)
  {
    if file !in special then Ok(PageLists([], []))
    else
      match (special[file].includePages, special[file].excludePages)
      case (Some(inc), Some(exc)) => Ok(PageLists(inc, exc))
      case _ => Err(MissingPageList(file))
  }

  /** The page lists with a missing list read as empty, as for a file without a
      special configuration. */
  function PageListsFor(special: map<string, SpecialPages>, file: string): (r: PageLists)
    ensures file !in special ==> r == PageLists([], [])
    ensures file in special ==>
      && r.includePages == (if special[file].includePages.Some? then special[file].includePages.value else [])
      && r.excludePages == (if special[file].excludePages.Some? then special[file].excludePages.value else [])
  {
    if file !in special then PageLists([], [])
    else PageLists(special[file].includePages.GetOr([]), special[file].excludePages.GetOr([]))
  }

  /** Wherever the script's reading succeeds, the corrected reading gives the same lists. */
  lemma PageListsAgree(special: map<string, SpecialPages>, file: string)
    ensures PageListsAsWritten(special, file).Ok? ==> PageListsAsWritten(special, file).value == PageListsFor(special, file)
  {
  }

  /** An entry giving only `excludePages` stops the script, although the same entry
      with `includePages: []` added is accepted and excludes the listed pages. */
  lemma ExcludeOnlyEntryFails(file: string, excludePages: seq<int>)
    ensures PageListsAsWritten(map[file := SpecialPages(None, Some(excludePages))], file).Err?
    ensures PageListsAsWritten(map[file := SpecialPages(Some([]), Some(excludePages))], file)
      == Ok(PageListsFor(map[file := SpecialPages(None, Some(excludePages))], file))
  {
  }

  // ---------------------------------------------------------------------------
  // The record
  // ---------------------------------------------------------------------------

  /** The record for `file` of `project`, or the error the script stops with. */
  function RunInfoFor(root: RootConfig, special: map<string, SpecialPages>, file: string, project: string, pageCount: nat): (r: Result<RunInfo, RunError>)
    ensures r.Err? <==> ParseRunMode(root.runMode).None?
    ensures r.Err? ==> r.error == InvalidRunMode(root.runMode)
    ensures r.Ok? ==>
      && r.value.runMode == root.runMode
      && r.value.baselineDir == root.baselineDir
      && r.value.releaseDir == root.releaseDir
      && r.value.projectFolder == project
      && r.value.pdfFileName == file
      && r.value.pdfPageCount == pageCount
      && PageLists(r.value.includePages, r.value.excludePages) == PageListsFor(special, file)
      && r.value.pdfDocId == r.value.percyBranch == BranchId(project, r.value.finalWorkingDir, file)
    ensures r.Ok? && root.runMode == ModeName(CreateBaseline) ==>
      && r.value.finalWorkingDir == root.baselineDir
      && r.value.percyTargetBranch == ""
    ensures r.Ok? && root.runMode == ModeName(CompareReleaseWithBaseline) ==>
      && r.value.finalWorkingDir == root.releaseDir
      && r.value.percyTargetBranch == BranchId(project, root.baselineDir, file)
  {
    var lists := PageListsFor(special, file);
    match ParseRunMode(root.runMode)
    case None => Err(InvalidRunMode(root.runMode))
    case Some(mode) =>
      var dir := if mode == CreateBaseline then root.baselineDir else root.releaseDir;
      var id := BranchId(project, dir, file);
      Ok(RunInfo(
        runMode := root.runMode,
        baselineDir := root.baselineDir,
        releaseDir := root.releaseDir,
        pdfDocId := id,
        projectFolder := project,
        pdfFileName := file,
        pdfPageCount := pageCount,
        includePages := lists.includePages,
        excludePages := lists.excludePages,
        percyBranch := id,
        percyTargetBranch := if mode == CreateBaseline then "" else BranchId(project, root.baselineDir, file),
        finalWorkingDir := dir))
  }

  /** Builds the record with empty identifiers, then fills in the working folder,
      the identifier and the branches for the run mode; any other mode is an error. */
  method CreateRunInfo(root: RootConfig, special: map<string, SpecialPages>, file: string, project: string, pageCount: nat)
    returns (r: Result<RunInfo, RunError>)
    ensures r == RunInfoFor(root, special, file, project, pageCount)
  {
    var lists := PageListsFor(special, file);
    var info := RunInfo(
      runMode := root.runMode,
      baselineDir := root.baselineDir,
      releaseDir := root.releaseDir,
      pdfDocId := "",
      projectFolder := project,
      pdfFileName := file,
      pdfPageCount := pageCount,
      includePages := lists.includePages,
      excludePages := lists.excludePages,
      percyBranch := "",
      percyTargetBranch := "",
      finalWorkingDir := "");
    if info.runMode == ModeName(CreateBaseline) {
      info := info.(finalWorkingDir := info.baselineDir);
      info := info.(pdfDocId := BranchId(project, info.finalWorkingDir, file));
      info := info.(percyBranch := info.pdfDocId);
      info := info.(percyTargetBranch := "");
    } else if info.runMode == ModeName(CompareReleaseWithBaseline) {
      info := info.(finalWorkingDir := info.releaseDir);
      info := info.(pdfDocId := BranchId(project, info.finalWorkingDir, file));
      info := info.(percyBranch := info.pdfDocId);
      info := info.(percyTargetBranch := BranchId(project, info.baselineDir, file));
    } else {
      return Err(InvalidRunMode(root.runMode));
    }
    return Ok(info);
  }

  /** A comparison run targets exactly the branch the baseline run of the same
      document created. */
  lemma CompareTargetsBaselineBranch(baseline: RootConfig, compare: RootConfig, special: map<string, SpecialPages>, file: string, project: string, pageCount: nat)
    requires baseline.runMode == ModeName(CreateBaseline)
    requires compare.runMode == ModeName(CompareReleaseWithBaseline)
    requires compare.baselineDir == baseline.baselineDir
    ensures RunInfoFor(compare, special, file, project, pageCount).value.percyTargetBranch
      == RunInfoFor(baseline, special, file, project, pageCount).value.percyBranch
  {
  }

  /** In a comparison run the branch and its target differ exactly when the release
      folder differs from the baseline folder. */
  lemma CompareBranchesDiffer(root: RootConfig, special: map<string, SpecialPages>, file: string, project: string, pageCount: nat)
    requires root.runMode == ModeName(CompareReleaseWithBaseline)
    ensures var info := RunInfoFor(root, special, file, project, pageCount).value;
      info.percyBranch != info.percyTargetBranch <==> root.releaseDir != root.baselineDir
  {
    BranchIdInjectiveOnDir(project, root.releaseDir, root.baselineDir, file);
  }
}
