# Snapshot planning for PDF regression runs

`tests/run.js` drives visual regression tests of PDF documents. A run description
lists project folders. It also gives a run mode (`create-baseline` or
`compare-release-with-baseline`), a baseline folder and a release folder. Optional
keys are `includeDocs`, `excludeDocs` and `specialDocConfigs`.

For every PDF that survives the document filters, the script:

- builds a run-information record, holding the working folder, the document
  identifier and the branch names;
- builds a snapshot configuration, which has one main snapshot of the document and
  one additional snapshot per selected page, each with the script that brings that
  page into view;
- names the generated configuration file;
- hands the branch names, stripped of whitespace, to the snapshot service.

This project models that decision logic in Dafny and proves properties of it:

- `Pages` selects the pages.
- `Snapshots` builds the per-page snapshots and the configuration.
- `DocRunInfo` builds the run-information record and the branch identifiers.
- `Documents` filters the documents and builds the special page-list map.
- `Pipeline` covers per-document and per-project processing.
- `Text` holds the string operations: whitespace removal, decimal numerals, and
  `replace` with a string pattern.
- `Lists` holds `filter`.

Where the script builds values step by step, the model keeps that form and proves
it against a specification function:

- the record of `createPdfDocsRunInfoMap` is filled in per mode;
- the additional snapshots are pushed page by page;
- the special map is filled entry by entry;
- the PDFs are processed one after another.

The page count of each PDF and the file names found in each project folder are
inputs to the model. Files are listed, and their pages counted, in the *baseline*
folder even in a comparison run (tests/run.js:216, 259-260). The model keeps this:
`PlanRun` takes the listing as `filesOf(project)`.

## Model

| member | source | states |
|---|---|---|
| Lists.Filter | tests/run.js:138-140 | the result holds exactly the elements of the input that pass the predicate, in their original order (a subsequence), and is no longer than the input |
| Lists.FilterKeepsAll | tests/run.js:138-140 | filtering with a predicate that holds for every element returns the list unchanged |
| Lists.FilterFilter | tests/run.js:222-243 | two successive filters equal one filter by the conjunction of the two predicates |
| Lists.SubsequenceOfIncreasing | tests/run.js:138-140 | deleting elements from a strictly increasing list leaves it strictly increasing and drawn from the original |
| Text.IsWhitespace | tests/run.js:69-70 | the characters of the ECMAScript `\s` class: tab, line feed, vertical tab, form feed, carriage return, space, no-break space, the Unicode space separators, the line and paragraph separators and the byte-order mark (a definition; its consequences are stated by the whitespace lemmas below) |
| Text.StripWhitespace | tests/run.js:69-70 | `replace(/\s/g, '')`: the result contains no character of the ECMAScript `\s` class and is no longer than the input |
| Text.StripIsFilter | tests/run.js:69-70 | whitespace removal is exactly filtering out the `\s` characters: every other character stays, in order |
| Text.StripWhitespaceFree | tests/run.js:69-70 | a string without whitespace is left unchanged |
| Text.StripConcat | tests/run.js:286 | stripping a concatenation is concatenating the stripped parts |
| Text.StripIdempotent | tests/run.js:69-70 | stripping twice equals stripping once |
| Text.Decimal | tests/run.js:156-157 | the numeral of a page number is non-empty, consists of decimal digits, and has no leading zero unless the number is 0 |
| Text.DecimalRoundTrip | tests/run.js:164 | reading the numeral back gives the number |
| Text.DecimalInjective | tests/run.js:164 | two numbers have the same numeral if and only if they are equal |
| Text.IndexOfFrom | tests/run.js:156-157 | the position found is an occurrence of the pattern, and no earlier position at or after the start is one; absence means that no position at or after the start is an occurrence |
| Text.ReplaceAfterHead | tests/run.js:156-157 | `replace` with a string pattern, where the text before the pattern lacks the pattern's first character, substitutes exactly that occurrence and keeps the text around it |
| Text.ReplaceFirst | tests/run.js:155-157 | `replace` with a string pattern: with no occurrence the text is unchanged; otherwise, at the first position where the pattern occurs, the pattern is replaced by the replacement and the text before and after it is kept |
| Pages.InitialPages | tests/run.js:133-136 | the candidate pages are strictly increasing |
| Pages.InitialPagesRange | tests/run.js:133-136 | the candidates are exactly pages 2 to N; page 1 never appears; the list is empty if and only if N <= 1 |
| Pages.SelectPages | tests/run.js:133-140 | the selected pages are strictly increasing; a page is selected if and only if it lies in 2..N, is listed in a non-empty `includePages`, and is not in `excludePages`; with both lists empty the candidates are unchanged |
| DocRunInfo.ModeName | tests/run.js:9-12 | the two accepted `runMode` texts, `create-baseline` and `compare-release-with-baseline` (a definition; ParseRunModeRoundTrip states that each is recognised as its own mode) |
| DocRunInfo.ParseRunMode | tests/run.js:9-12 | a recognised mode is the one whose name is the given text; no mode is recognised only when the text names neither |
| DocRunInfo.ParseRunModeRoundTrip | tests/run.js:9-12 | the name of each mode is recognised as exactly that mode |
| DocRunInfo.BranchId | tests/run.js:110-119 | the identifier `DOC_<project>_<folder>_<file>` (a definition; the injectivity and ambiguity lemmas below state what it does and does not determine) |
| DocRunInfo.BranchIdInjectiveOnFile | tests/run.js:110 | for one project and folder, two files get the same identifier if and only if they are the same file |
| DocRunInfo.BranchIdInjectiveOnDir | tests/run.js:117-119 | for one project and file, two folders give the same identifier if and only if they are the same folder |
| DocRunInfo.BranchIdAmbiguous | tests/run.js:110 | the identifier does not determine its parts: project `a_b` with folder `c` gives the same identifier as project `a` with folder `b_c` |
| DocRunInfo.PageListsAsWritten | tests/run.js:93-100 | a file without a special entry gets two empty lists; an entry that lacks either list is an error (the later `length` read throws), and any other entry gives its lists |
| DocRunInfo.PageListsFor | tests/run.js:93-100 | a file without a special entry gets two empty lists; otherwise each list comes from the entry, and a missing list reads as empty |
| DocRunInfo.PageListsAgree | tests/run.js:93-100 | wherever the script's reading succeeds, it gives the same lists as the corrected reading |
| DocRunInfo.ExcludeOnlyEntryFails | tests/run.js:93-100 | an entry with only `excludePages` stops the script, yet the same entry with `includePages: []` gives the lists the corrected reading gives |
| DocRunInfo.RunInfoFor | tests/run.js:76-128 | an error if and only if the run mode is neither accepted value, carrying that mode. Otherwise the record copies mode, folders, project, file and page count, and takes its page lists from the special map. Identifier and branch are both `DOC_<project>_<working folder>_<file>`. A baseline run works in the baseline folder with an empty target branch; a comparison run works in the release folder and targets the baseline folder's identifier |
| DocRunInfo.CreateRunInfo | tests/run.js:76-128 | building the record with empty identifiers, then filling in the working folder, identifier and branches for the mode, gives exactly `RunInfoFor`, including the error for another mode |
| DocRunInfo.CompareTargetsBaselineBranch | tests/run.js:110-119 | a comparison run targets exactly the branch that the baseline run of the same document and baseline folder created |
| DocRunInfo.CompareBranchesDiffer | tests/run.js:116-119 | in a comparison run, the branch differs from its target if and only if the release folder differs from the baseline folder |
| Snapshots.PageTurnScript | tests/run.js:152-157 | the navigation template with the next page's numeral in place of the first placeholder and the current page's numeral in place of the second (a definition; TemplateSubstitution proves it equals the two `replace` calls) |
| Snapshots.SubstituteBoth | tests/run.js:155-157 | two successive first-occurrence replacements in `head + first + mid + second + tail` put each value exactly in place of its own placeholder, when both placeholders start with `$` and no text before them contains `$` |
| Snapshots.TemplateSubstitution | tests/run.js:152-157 | substituting the next page and then the current page into the template gives the template text with each placeholder replaced once, in place |
| Snapshots.Entry | tests/run.js:149-175 | the additional snapshot for one page: suffix `Page` after a bar, then the page numeral, the loaded-page selector, and the shared reference script or the filled-in template (a definition; EntriesFollowPages, SuffixesDistinct and NavigationIndices state its properties) |
| Snapshots.SnapshotConfigFor | tests/run.js:177-190 | the configuration of one document: base URL, shared script, one main snapshot named after the file at the viewer URL of project, working folder and file, holding the entries of the selected pages (a definition; CreateSnapshotConfig is proved equal to it) |
| Snapshots.PageSnapshot | tests/run.js:149-175 | the additional snapshot for the page at a position: suffix `Page` after a bar and the page's numeral, the loaded-page selector, and either the reference script or the template filled with the previous page (or 1) and the page itself |
| Snapshots.CreateSnapshotConfig | tests/run.js:130-193 | walking the selected pages and pushing one entry per page produces exactly the specified configuration: base URL, shared script, and one main snapshot named after the file, at the viewer URL of project, working folder and file, with the entries in page order |
| Snapshots.EntriesFollowPages | tests/run.js:149-188 | there is one main snapshot, named after the file, with one additional snapshot per selected page; each waits for a loaded page, and its suffix is the fixed page prefix followed by digits that read back as its page |
| Snapshots.SuffixesDistinct | tests/run.js:164 | distinct additional snapshots of a document have distinct suffixes |
| Snapshots.NavigationIndices | tests/run.js:150-157 | with page lists, entry i's script has next index p_i and current index p_{i-1} (or 1 for the first), and the current index is always smaller than the next |
| Snapshots.ReferenceIffNoPageLists | tests/run.js:159-174 | an entry runs the shared reference script if and only if both page lists are empty |
| Snapshots.ReferenceStepsOnePage | tests/run.js:133-136 | without page lists, each selected page is exactly one after the previous one, starting from page 1, so the one-page shared script does what the template's loop would |
| Documents.DocsListedFor | tests/run.js:224-230 | a document is listed for a project if and only if the list holds an entry naming that project and document |
| Documents.SurvivingDocs | tests/run.js:222-243 | applying the `includeDocs` filter and then the `excludeDocs` filter, each only when its key is present, equals one filter by "listed for this project in `includeDocs` and not listed for it in `excludeDocs`" |
| Documents.SurvivorsAreFiltered | tests/run.js:222-243 | the two successive filters equal the single combined filter |
| Documents.SurvivingDocsMembers | tests/run.js:222-243 | a file survives if and only if it is in the folder and passes both lists for this project, and the survivors keep the folder's order |
| Documents.SpecialEntriesMap | tests/run.js:245-256 | the map built by visiting the special entries in order, each entry that names this project and a surviving file overwriting that file's value (a definition; BuildSpecialConfigMap is proved equal to it and states its keys and values) |
| Documents.SpecialConfigMap | tests/run.js:245-256 | no special entries when the key is absent, otherwise SpecialEntriesMap (a definition) |
| Documents.BuildSpecialConfigMap | tests/run.js:245-256 | without `specialDocConfigs` the map is empty. Otherwise a file is a key if and only if some entry names this project and that surviving file, and its value is the page lists of the last such entry |
| Pipeline.ConfigFileName | tests/run.js:285-289 | `snapshots_` + identifier without whitespace + `_` + working folder + `.yml` (a definition; ConfigFileNamesAgree and ConfigFileNamesCollide state when two names coincide) |
| Pipeline.PlanDocument | tests/run.js:258-297 | processing one PDF fails if and only if the run mode is invalid, and then with that mode |
| Pipeline.PlanNamesFollowBranch | tests/run.js:69-70 | the branch names handed on contain no whitespace. The branch is the stripped identifier of project, working folder and file; the target is empty in a baseline run and the stripped baseline identifier in a comparison run. The configuration file is `snapshots_` + stripped branch + `_` + working folder + `.yml` |
| Pipeline.ConfigFileNamesAgree | tests/run.js:285-289 | two records of one working folder whose identifiers share a head get the same configuration file name if and only if their file names agree once whitespace is removed |
| Pipeline.ConfigFileNamesCollide | tests/run.js:285-289 | within one run and project, two PDFs share a configuration file name, and a branch, if and only if their names agree once whitespace is removed |
| Pipeline.PlanOne | tests/run.js:265-297 | building the record, then the configuration and the names, gives exactly `PlanDocument` |
| Pipeline.PlanDocuments | tests/run.js:258-298 | processing a list of PDFs fails if and only if the mode is invalid and the list is non-empty, and then with that mode; on success there is one plan per PDF |
| Pipeline.PlanDocumentsEach | tests/run.js:258-298 | on success, the plan at each position is that of the PDF at that position |
| Pipeline.PlanFiles | tests/run.js:258-298 | processing the PDFs one after another, stopping at the first error, gives exactly `PlanDocuments` |
| Pipeline.ProjectPlans | tests/run.js:214-299 | processing one project folder fails if and only if the mode is invalid and some PDF survives the filters, and then with that mode; on success there is one plan per surviving PDF |
| Pipeline.PlanProject | tests/run.js:214-299 | the special map is exactly SpecialConfigMap of the surviving files, so its keys are surviving files only; the project's result is `PlanDocuments` over the surviving files, in folder order, with that map, which is `ProjectPlans` |
| Pipeline.RunDocs | tests/run.js:214-258 | the PDFs of a run in processing order: each project folder's surviving files, project after project (a definition; RunDocsAppend states how it splits) |
| Pipeline.RunPlans | tests/run.js:211-304 | processing a list of project folders fails if and only if the mode is invalid and some folder has a surviving PDF, and then with that mode; on success there is one plan per surviving PDF of all the folders |
| Pipeline.PlanRun | tests/run.js:211-304 | without `projectFolders` nothing is processed. Otherwise processing the folders one after another, stopping at the first error, gives exactly `RunPlans`: each folder's plans, with its own special map, after those of the folders before it. The run fails if and only if the mode is invalid and some project has a surviving PDF; on success there is one plan per surviving PDF of all projects |
| Pipeline.RunDocsAppend | tests/run.js:214 | the documents of two lists of projects are those of the first followed by those of the second |

## Left out

- Reading the run description: command-line arguments, file reading and YAML
  parsing (`readPdfDocsRunInfoConfigs`). The description is an input value, and
  keys the script reads with `!= null` are `Option`s.
- `setup` and the folder copying, listing and writing helpers. The files of each
  project folder are an input function.
- Counting pages with the PDF library. The page count is an input, a natural
  number.
- YAML serialisation of the configuration and `furtherCleanseYmlFile`. The model
  stops at the configuration record. The configuration file is represented by its
  name only.
- Starting the `percy snapshot` process. Only the branch values it receives are
  modelled, after whitespace removal.
- Console output and `process.exit`. The exit is the `Err` value of the result.
  This includes the page list printed at tests/run.js:142-147.
- The asynchronous `forEach` over files (tests/run.js:258-298). Per-file processing
  is modelled as sequential calls in folder order. With an invalid mode every file
  fails, so the outcome is the same error whichever file's page count arrives first.
- The `try`/`catch` at tests/run.js:212-303. Errors raised inside the asynchronous
  per-file callbacks do not reach it, and no synchronous step of the model can fail.
- The JavaScript text of the viewer scripts is kept as text, without interpreting
  it. The model relies only on where the two placeholders sit.
- `replace` special patterns (`$&`, `$1`, ...) in the replacement text are not
  modelled. The replacements are always decimal numerals, which contain no `$`.
- Page values other than integers in `includePages` / `excludePages`. The lists
  are `seq<int>`, and `includes` is integer equality.
- `baselineDir` or `releaseDir` missing from the description. They are strings.
- The record and the pipeline use the corrected page-list reading `PageListsFor`
  (see Findings), in which a missing list reads as empty. The script's own
  reading, which fails on such an entry, is modelled only by `PageListsAsWritten`
  and `ExcludeOnlyEntryFails`. Each member below is stated for the corrected
  reading and never produces `MissingPageList`:
- DocRunInfo.RunInfoFor: uses `PageListsFor`, not the script's failing reading.
- DocRunInfo.CreateRunInfo: uses `PageListsFor`, not the script's failing reading.
- Pipeline.PlanDocument: uses `PageListsFor`, not the script's failing reading.
- Pipeline.PlanOne: uses `PageListsFor`, not the script's failing reading.
- Pipeline.PlanDocuments: uses `PageListsFor`, not the script's failing reading.
- Pipeline.PlanFiles: uses `PageListsFor`, not the script's failing reading.
- Pipeline.ProjectPlans: uses `PageListsFor`, not the script's failing reading.
- Pipeline.PlanProject: uses `PageListsFor`, not the script's failing reading.
- Pipeline.RunPlans: uses `PageListsFor`, not the script's failing reading.
- Pipeline.PlanRun: uses `PageListsFor`, not the script's failing reading.

## Findings

| source | as written | input that shows it | evidently intended | confidence | as-written member | corrected member |
|---|---|---|---|---|---|---|
| tests/run.js:93-100 | For a file with a special entry, both page lists are copied from the entry as they are. An entry without `includePages` (or without `excludePages`) leaves that list `undefined`, and `.length` at tests/run.js:138 (or 140) then throws inside the asynchronous per-file callback. That rejects the callback's promise, which `forEach` discards, so the rejection is unhandled; on Node.js 15 and later an unhandled rejection ends the whole process, so the remaining documents are not snapshotted either | `specialDocConfigs: [{project: P, doc: D, excludePages: [3]}]` with `D` a surviving PDF of `P` | a list that is not given does not constrain the selection, as for a file without a special entry (empty list) | medium, not executed | DocRunInfo.PageListsAsWritten, DocRunInfo.ExcludeOnlyEntryFails | DocRunInfo.PageListsFor, DocRunInfo.PageListsAgree |
