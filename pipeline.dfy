/**
 * Per-document and per-project processing: the run-information record, the
 * snapshot configuration, the name of the generated configuration file and the
 * branch names passed to the snapshot service.
 */
module Pipeline {
  import opened Wrappers
  import opened Text
  import opened Config
  import opened DocRunInfo
  import opened Snapshots
  import opened Documents

  const ConfigFilePrefix := "snapshots_"
  const ConfigFileExt := ".yml"

  /** The name of the generated configuration file: the identifier with its
      whitespace removed, then the working folder as it is. */
  function ConfigFileName(info: RunInfo): string {
    ConfigFilePrefix + StripWhitespace(info.pdfDocId) + "_" + info.finalWorkingDir + ConfigFileExt
  }

  /** What one PDF produces: the configuration file (its name and content) and the
      values of `PERCY_BRANCH` and `PERCY_TARGET_BRANCH` for the snapshot run. */
  datatype DocPlan = DocPlan(
    configFileName: string,
    config: SnapshotConfig,
    percyBranch: string,
    percyTargetBranch: string)

  /** The processing of one PDF of a project, or the error the script stops with. */
  function PlanDocument(root: RootConfig, special: map<string, SpecialPages>, project: string, file: string, pageCount: nat): (r: Result<DocPlan, RunError>)
    ensures r.Err? <==> ParseRunMode(root.runMode).None?
    ensures r.Err? ==> r.error == InvalidRunMode(root.runMode)
  {
    match RunInfoFor(root, special, file, project, pageCount)
    case Err(e) => Err(e)
    case Ok(info) =>
      Ok(DocPlan(
        ConfigFileName(info),
        SnapshotConfigFor(info),
        StripWhitespace(info.percyBranch),
        StripWhitespace(info.percyTargetBranch)))
  }

  /** The branch names handed on contain no whitespace, and the configuration file
      is named after the branch and the folder the run snapshots. */
  lemma PlanNamesFollowBranch(root: RootConfig, special: map<string, SpecialPages>, project: string, file: string, pageCount: nat)
    requires PlanDocument(root, special, project, file, pageCount).Ok?
    ensures var plan := PlanDocument(root, special, project, file, pageCount).value;
      var dir := if root.runMode == ModeName(CreateBaseline) then root.baselineDir else root.releaseDir;
      && WhitespaceFree(plan.percyBranch)
      && WhitespaceFree(plan.percyTargetBranch)
      && plan.percyBranch == StripWhitespace(BranchId(project, dir, file))
      && plan.configFileName == ConfigFilePrefix + plan.percyBranch + "_" + dir + ConfigFileExt
      && (root.runMode == ModeName(CompareReleaseWithBaseline) ==>
            plan.percyTargetBranch == StripWhitespace(BranchId(project, root.baselineDir, file)))
      && (root.runMode == ModeName(CreateBaseline) ==> plan.percyTargetBranch == "")
  {
  }

  /** Identifiers with a common head agree after whitespace removal exactly when
      their file names do. */
  lemma StrippedIdsAgree(head: string, file1: string, file2: string)
    ensures StripWhitespace(head + file1) == StripWhitespace(head + file2)
      <==> StripWhitespace(file1) == StripWhitespace(file2)
  {
    StripConcat(head, file1);
    StripConcat(head, file2);
    FramedEqual(StripWhitespace(head), StripWhitespace(file1), StripWhitespace(file2), "");
    assert StripWhitespace(head) + StripWhitespace(file1) + "" == StripWhitespace(head) + StripWhitespace(file1);
    assert StripWhitespace(head) + StripWhitespace(file2) + "" == StripWhitespace(head) + StripWhitespace(file2);
  }

  /** Two records of one working folder whose identifiers share a head get the
      same configuration file name exactly when their file names agree once
      whitespace is removed. */
  lemma ConfigFileNamesAgree(info1: RunInfo, info2: RunInfo, head: string, file1: string, file2: string)
    requires info1.pdfDocId == head + file1 && info2.pdfDocId == head + file2
    requires info1.finalWorkingDir == info2.finalWorkingDir
    ensures ConfigFileName(info1) == ConfigFileName(info2) <==> StripWhitespace(file1) == StripWhitespace(file2)
  {
    StrippedIdsAgree(head, file1, file2);
    var tail := "_" + info1.finalWorkingDir + ConfigFileExt;
    FramedEqual(ConfigFilePrefix, StripWhitespace(info1.pdfDocId), StripWhitespace(info2.pdfDocId), tail);
    assert ConfigFileName(info1) == ConfigFilePrefix + StripWhitespace(info1.pdfDocId) + tail;
    assert ConfigFileName(info2) == ConfigFilePrefix + StripWhitespace(info2.pdfDocId) + tail;
  }

  /** Within one run and project, two PDFs share a configuration file name, and a
      branch, exactly when their names agree once whitespace is removed. */
  lemma ConfigFileNamesCollide(root: RootConfig, special: map<string, SpecialPages>, project: string, file1: string, file2: string, count1: nat, count2: nat)
    requires ParseRunMode(root.runMode).Some?
    ensures var info1 := RunInfoFor(root, special, file1, project, count1).value;
      var info2 := RunInfoFor(root, special, file2, project, count2).value;
      && (ConfigFileName(info1) == ConfigFileName(info2) <==> StripWhitespace(file1) == StripWhitespace(file2))
      && (StripWhitespace(info1.percyBranch) == StripWhitespace(info2.percyBranch) <==> StripWhitespace(file1) == StripWhitespace(file2))
  {
    var info1 := RunInfoFor(root, special, file1, project, count1).value;
    var info2 := RunInfoFor(root, special, file2, project, count2).value;
    var head := BranchPrefix + "_" + project + "_" + info1.finalWorkingDir + "_";
    assert info1.pdfDocId == info1.percyBranch == head + file1;
    assert info2.pdfDocId == info2.percyBranch == head + file2;
    StrippedIdsAgree(head, file1, file2);
    ConfigFileNamesAgree(info1, info2, head, file1, file2);
  }

  /** Processes one PDF: builds its run information, stopping on an invalid run
      mode, then its snapshot configuration and the names handed on. */
  method PlanOne(root: RootConfig, special: map<string, SpecialPages>, project: string, file: string, pageCount: nat)
    returns (r: Result<DocPlan, RunError>)
    ensures r == PlanDocument(root, special, project, file, pageCount)
  {
    var info := CreateRunInfo(root, special, file, project, pageCount);
    if info.Err? {
      return Err(info.error);
    }
    var config := CreateSnapshotConfig(info.value);
    r := Ok(DocPlan(
      ConfigFileName(info.value),
      config,
      StripWhitespace(info.value.percyBranch),
      StripWhitespace(info.value.percyTargetBranch)));
  }

  /** The processing of the given PDFs in order, stopping at the first error. */
  function PlanDocuments(root: RootConfig, special: map<string, SpecialPages>, project: string, files: seq<string>, pageCountOf: (string, string) -> nat): (r: Result<seq<DocPlan>, RunError>)
    ensures r.Err? <==> ParseRunMode(root.runMode).None? && |files| > 0
    ensures r.Err? ==> r.error == InvalidRunMode(root.runMode)
    ensures r.Ok? ==> |r.value| == |files|
    decreases |files|
  {
    if files == [] then Ok([])
    else
      var front := files[..|files| - 1];
      var last := files[|files| - 1];
      match PlanDocuments(root, special, project, front, pageCountOf)
      case Err(e) => Err(e)
      case Ok(plans) =>
        match PlanDocument(root, special, project, last, pageCountOf(project, last))
        case Err(e) => Err(e)
        case Ok(plan) => Ok(plans + [plan])
  }

  /** A successful run over several PDFs holds, at each position, the plan of the
      PDF at that position. */
  lemma {:induction false} PlanDocumentsEach(root: RootConfig, special: map<string, SpecialPages>, project: string, files: seq<string>, pageCountOf: (string, string) -> nat)
    requires PlanDocuments(root, special, project, files, pageCountOf).Ok?
    ensures var plans := PlanDocuments(root, special, project, files, pageCountOf).value;
      forall i :: 0 <= i < |files| ==> PlanDocument(root, special, project, files[i], pageCountOf(project, files[i])) == Ok(plans[i])
    decreases |files|
  {
    hide PlanDocument;
    if files != [] {
      var front := files[..|files| - 1];
      var plans := PlanDocuments(root, special, project, files, pageCountOf).value;
      var frontPlans := PlanDocuments(root, special, project, front, pageCountOf).value;
      PlanDocumentsEach(root, special, project, front, pageCountOf);
      assert plans == frontPlans + [plans[|files| - 1]];
      forall i | 0 <= i < |files|
        ensures PlanDocument(root, special, project, files[i], pageCountOf(project, files[i])) == Ok(plans[i])
      {
        if i < |front| {
          assert files[i] == front[i];
          assert plans[i] == frontPlans[i];
        }
      }
    }
  }

  /** Plans each of the given PDFs in order, stopping at the first error. */
  method PlanFiles(root: RootConfig, special: map<string, SpecialPages>, project: string, files: seq<string>, pageCountOf: (string, string) -> nat)
    returns (r: Result<seq<DocPlan>, RunError>)
    ensures r == PlanDocuments(root, special, project, files, pageCountOf)
  {
    hide PlanDocument;
    var plans: seq<DocPlan> := [];
    var i := 0;
    while i < |files|
      invariant 0 <= i <= |files|
      invariant PlanDocuments(root, special, project, files[..i], pageCountOf) == Ok(plans)
    {
      var plan := PlanOne(root, special, project, files[i], pageCountOf(project, files[i]));
      if plan.Err? {
        return Err(plan.error);
      }
      assert files[..i + 1][..i] == files[..i];
      plans := plans + [plan.value];
      i := i + 1;
    }
    assert files[..i] == files;
    r := Ok(plans);
  }

  /** The processing of one project folder: its surviving PDFs in order, each with
      the special page lists of that folder. */
  function ProjectPlans(root: RootConfig, project: string, files: seq<string>, pageCountOf: (string, string) -> nat): (r: Result<seq<DocPlan>, RunError>)
    ensures r.Err? <==> ParseRunMode(root.runMode).None? && |SurvivingDocs(root, project, files)| > 0
    ensures r.Err? ==> r.error == InvalidRunMode(root.runMode)
    ensures r.Ok? ==> |r.value| == |SurvivingDocs(root, project, files)|
  {
    var survivors := SurvivingDocs(root, project, files);
    PlanDocuments(root, SpecialConfigMap(survivors, project, root.specialDocConfigs), project, survivors, pageCountOf)
  }

  /** Processes one project folder: filters its PDFs, builds the special page-list
      map, then plans each surviving PDF in order; an invalid run mode stops the
      script at the first PDF. */
  method PlanProject(root: RootConfig, project: string, files: seq<string>, pageCountOf: (string, string) -> nat)
    returns (special: map<string, SpecialPages>, r: Result<seq<DocPlan>, RunError>)
    ensures special == SpecialConfigMap(SurvivingDocs(root, project, files), project, root.specialDocConfigs)
    ensures forall d :: d in special ==> d in SurvivingDocs(root, project, files)
    ensures r == PlanDocuments(root, special, project, SurvivingDocs(root, project, files), pageCountOf)
    ensures r == ProjectPlans(root, project, files, pageCountOf)
  {
    var survivors := SurvivingDocs(root, project, files);
    special := BuildSpecialConfigMap(survivors, project, root.specialDocConfigs);
    r := PlanFiles(root, special, project, survivors, pageCountOf);
  }

  /** The PDFs of a run, in processing order: each project folder's surviving files. */
  function RunDocs(root: RootConfig, projects: seq<string>, filesOf: string -> seq<string>): seq<DocRef> {
    if projects == [] then []
    else
      var survivors := SurvivingDocs(root, projects[0], filesOf(projects[0]));
      seq(|survivors|, i requires 0 <= i < |survivors| => DocRef(projects[0], survivors[i]))
      + RunDocs(root, projects[1..], filesOf)
  }

  /** The processing of the given project folders in order, each folder's plans
      after those of the folders before it, stopping at the first error. */
  function RunPlans(root: RootConfig, projects: seq<string>, filesOf: string -> seq<string>, pageCountOf: (string, string) -> nat): (r: Result<seq<DocPlan>, RunError>)
    ensures r.Err? <==> ParseRunMode(root.runMode).None? && |RunDocs(root, projects, filesOf)| > 0
    ensures r.Err? ==> r.error == InvalidRunMode(root.runMode)
    ensures r.Ok? ==> |r.value| == |RunDocs(root, projects, filesOf)|
    decreases |projects|
  {
    if projects == [] then Ok([])
    else
      var n := |projects| - 1;
      var last := projects[n];
      RunDocsStep(root, projects, n, filesOf);
      assert projects[..n + 1] == projects;
      match RunPlans(root, projects[..n], filesOf, pageCountOf)
      case Err(e) => Err(e)
      case Ok(plans) =>
        match ProjectPlans(root, last, filesOf(last), pageCountOf)
        case Err(e) => Err(e)
        case Ok(more) => Ok(plans + more)
  }

  /** Processes every project folder of the run description in turn; without a
      `projectFolders` key nothing is processed. */
  method PlanRun(root: RootConfig, filesOf: string -> seq<string>, pageCountOf: (string, string) -> nat)
    returns (r: Result<seq<DocPlan>, RunError>)
    ensures root.projectFolders.None? ==> r == Ok([])
    ensures root.projectFolders.Some? ==> r == RunPlans(root, root.projectFolders.value, filesOf, pageCountOf)
    ensures root.projectFolders.Some? ==>
      && (r.Err? <==> ParseRunMode(root.runMode).None? && |RunDocs(root, root.projectFolders.value, filesOf)| > 0)
      && (r.Ok? ==> |r.value| == |RunDocs(root, root.projectFolders.value, filesOf)|)
  {
    hide PlanDocuments;
    hide PlanDocument;
    hide SurvivingDocs;
    hide SpecialConfigMap;
    hide ProjectPlans;
    if root.projectFolders.None? {
      return Ok([]);
    }
    var projects := root.projectFolders.value;
    var plans: seq<DocPlan> := [];
    var i := 0;
    while i < |projects|
      invariant 0 <= i <= |projects|
      invariant RunPlans(root, projects[..i], filesOf, pageCountOf) == Ok(plans)
    {
      var project := projects[i];
      var special, planned := PlanProject(root, project, filesOf(project), pageCountOf);
      if planned.Err? {
        RunDocsReach(root, projects, i, filesOf);
        return Err(planned.error);
      }
      assert projects[..i + 1][..i] == projects[..i];
      plans := plans + planned.value;
      i := i + 1;
    }
    assert projects[..i] == projects;
    r := Ok(plans);
  }

  lemma {:induction false} RunDocsAppend(root: RootConfig, front: seq<string>, back: seq<string>, filesOf: string -> seq<string>)
    ensures RunDocs(root, front + back, filesOf) == RunDocs(root, front, filesOf) + RunDocs(root, back, filesOf)
  {
    if front != [] {
      assert (front + back)[0] == front[0];
      assert (front + back)[1..] == front[1..] + back;
      RunDocsAppend(root, front[1..], back, filesOf);
    } else {
      assert front + back == back;
    }
  }

  /** The documents of the first `i + 1` projects are those of the first `i` and
      then those of project `i`. */
  lemma RunDocsStep(root: RootConfig, projects: seq<string>, i: nat, filesOf: string -> seq<string>)
    requires i < |projects|
    ensures |RunDocs(root, projects[..i + 1], filesOf)|
      == |RunDocs(root, projects[..i], filesOf)| + |SurvivingDocs(root, projects[i], filesOf(projects[i]))|
  {
    assert projects[..i + 1] == projects[..i] + [projects[i]];
    RunDocsAppend(root, projects[..i], [projects[i]], filesOf);
  }

  /** Every surviving PDF of every project is among the run's documents. */
  lemma RunDocsReach(root: RootConfig, projects: seq<string>, i: nat, filesOf: string -> seq<string>)
    requires i < |projects|
    ensures |RunDocs(root, projects, filesOf)| >= |SurvivingDocs(root, projects[i], filesOf(projects[i]))|
  {
    assert projects == projects[..i] + projects[i..];
    RunDocsAppend(root, projects[..i], projects[i..], filesOf);
    assert projects[i..][0] == projects[i];
  }
}
