/**
 * The run-description file the script is started with, after YAML parsing.
 * An `Option` field is a key that may be missing (or null) in that file.
 */
module Config {
  import opened Wrappers

  /** An entry of `includeDocs` or `excludeDocs`: one PDF of one project folder. */
  datatype DocRef = DocRef(project: string, doc: string)

  /** An entry of `specialDocConfigs`: page lists for one PDF of one project folder.
      Either list may be missing from the entry. */
  datatype SpecialDocConfig = SpecialDocConfig(
    project: string,
    doc: string,
    includePages: Option<seq<int>>,
    excludePages: Option<seq<int>>)

  /** The value stored per PDF in the special-configuration map. */
  datatype SpecialPages = SpecialPages(includePages: Option<seq<int>>, excludePages: Option<seq<int>>)

  datatype RootConfig = RootConfig(
    runMode: string,
    baselineDir: string,
    releaseDir: string,
    projectFolders: Option<seq<string>>,
    includeDocs: Option<seq<DocRef>>,
    excludeDocs: Option<seq<DocRef>>,
    specialDocConfigs: Option<seq<SpecialDocConfig>>)
}
