/**
 * Which PDFs of a project folder are processed, and the special page lists
 * recorded for them.
 */
module Documents {
  import opened Wrappers
  import opened Lists
  import opened Config

  /** `entries.filter(e => e.project === project).map(e => e.doc)`. */
  function DocsListedFor(entries: seq<DocRef>, project: string): (r: seq<string>)
    ensures forall d :: d in r <==> DocRef(project, d) in entries
  {
    if entries == [] then []
    else
      (if entries[0].project == project then [entries[0].doc] else [])
      + DocsListedFor(entries[1..], project)
  }

  /** Whether `file` of `project` survives `includeDocs` and `excludeDocs`: a
      missing list does not constrain; a present one is read for this project only. */
  predicate DocSurvives(root: RootConfig, project: string, file: string) {
    && (root.includeDocs.None? || DocRef(project, file) in root.includeDocs.value)
    && (root.excludeDocs.None? || DocRef(project, file) !in root.excludeDocs.value)
  }

  /** The files of the project folder that are processed: kept if listed in
      `includeDocs` for this project (when that key is present), then dropped if
      listed in `excludeDocs` for this project (when that key is present). */
  function SurvivingDocs(root: RootConfig, project: string, files: seq<string>): (r: seq<string>)
    ensures r == Filter(files, f => DocSurvives(root, project, f))
  {
    var included :=
      if root.includeDocs.None? then files
      else Filter(files, f => f in DocsListedFor(root.includeDocs.value, project));
    var left :=
      if root.excludeDocs.None? then included
      else Filter(included, f => f !in DocsListedFor(root.excludeDocs.value, project));
    SurvivorsAreFiltered(root, project, files, included, left);
    left
  }

  lemma SurvivorsAreFiltered(root: RootConfig, project: string, files: seq<string>, included: seq<string>, left: seq<string>)
    requires included ==
      if root.includeDocs.None? then files
      else Filter(files, f => f in DocsListedFor(root.includeDocs.value, project))
    requires left ==
      if root.excludeDocs.None? then included
      else Filter(included, f => f !in DocsListedFor(root.excludeDocs.value, project))
    ensures left == Filter(files, f => DocSurvives(root, project, f))
  {
    var survives := (f: string) => DocSurvives(root, project, f);
    var inc := (f: string) =>
      root.includeDocs.None? || f in DocsListedFor(root.includeDocs.value, project);
    var exc := (f: string) =>
      root.excludeDocs.None? || f !in DocsListedFor(root.excludeDocs.value, project);
    FilterFilter(files, inc, exc, survives);
    if root.includeDocs.None? {
      FilterKeepsAll(files, inc);
    } else {
      assert included == Filter(files, inc) by {
        FilterFilter(files, f => f in DocsListedFor(root.includeDocs.value, project), f => true, inc);
        FilterKeepsAll(Filter(files, f => f in DocsListedFor(root.includeDocs.value, project)), f => true);
      }
    }
    if root.excludeDocs.None? {
      FilterKeepsAll(included, exc);
    } else {
      assert left == Filter(included, exc) by {
        FilterFilter(included, f => f !in DocsListedFor(root.excludeDocs.value, project), f => true, exc);
        FilterKeepsAll(Filter(included, f => f !in DocsListedFor(root.excludeDocs.value, project)), f => true);
      }
    }
  }

  /** The surviving files are exactly those of the folder that pass both lists,
      and they keep the folder's order. */
  lemma SurvivingDocsMembers(root: RootConfig, project: string, files: seq<string>)
    ensures forall f :: f in SurvivingDocs(root, project, files) <==> f in files && DocSurvives(root, project, f)
    ensures IsSubsequence(SurvivingDocs(root, project, files), files)
  {
  }

  // ---------------------------------------------------------------------------
  // The special-configuration map
  // ---------------------------------------------------------------------------

  /** Whether an entry of `specialDocConfigs` is recorded: it names this project
      and one of the surviving files. */
  predicate Applies(c: SpecialDocConfig, files: seq<string>, project: string) {
    c.doc in files && c.project == project
  }

  /** Entry `k` is the last entry among `configs[..n]` recorded for `doc`. */
  ghost predicate LastFor(configs: seq<SpecialDocConfig>, k: nat, n: nat, doc: string, files: seq<string>, project: string)
    requires k < n <= |configs|
  {
    && Applies(configs[k], files, project)
    && configs[k].doc == doc
    && forall j :: k < j < n ==> !(Applies(configs[j], files, project) && configs[j].doc == doc)
  }

  /** The map that recording every applicable entry of `configs` in turn produces,
      a later entry for a file overwriting an earlier one. */
  function SpecialEntriesMap(files: seq<string>, project: string, configs: seq<SpecialDocConfig>): map<string, SpecialPages>
    decreases |configs|
  {
    if configs == [] then map[]
    else
      var m := SpecialEntriesMap(files, project, configs[..|configs| - 1]);
      var c := configs[|configs| - 1];
      if Applies(c, files, project) then m[c.doc := SpecialPages(c.includePages, c.excludePages)] else m
  }

  /** The special map of a project: empty without `specialDocConfigs`. */
  function SpecialConfigMap(files: seq<string>, project: string, configs: Option<seq<SpecialDocConfig>>): map<string, SpecialPages> {
    match configs
    case None => map[]
    case Some(cs) => SpecialEntriesMap(files, project, cs)
  }

  /** Walks `specialDocConfigs` in order and records the page lists of every entry
      for this project whose file survived; a later entry for the same file
      overwrites an earlier one. */
  method BuildSpecialConfigMap(files: seq<string>, project: string, configs: Option<seq<SpecialDocConfig>>)
    returns (m: map<string, SpecialPages>)
    ensures m == SpecialConfigMap(files, project, configs)
    ensures configs.None? ==> m == map[]
    ensures configs.Some? ==> forall d :: d in m <==>
      exists k :: 0 <= k < |configs.value| && Applies(configs.value[k], files, project) && configs.value[k].doc == d
    ensures configs.Some? ==> forall d :: d in m ==>
      exists k :: 0 <= k < |configs.value| && LastFor(configs.value, k, |configs.value|, d, files, project)
        && m[d] == SpecialPages(configs.value[k].includePages, configs.value[k].excludePages)
  {
    m := map[];
    if configs.None? {
      return;
    }
    var cs := configs.value;
    var i := 0;
    while i < |cs|
      invariant 0 <= i <= |cs|
      invariant m == SpecialEntriesMap(files, project, cs[..i])
      invariant forall d :: d in m <==>
        exists k :: 0 <= k < i && Applies(cs[k], files, project) && cs[k].doc == d
      invariant forall d :: d in m ==>
        exists k :: 0 <= k < i && LastFor(cs, k, i, d, files, project)
          && m[d] == SpecialPages(cs[k].includePages, cs[k].excludePages)
    {
      var c := cs[i];
      assert cs[..i + 1][..i] == cs[..i];
      if c.doc in files && project == c.project {
        m := m[c.doc := SpecialPages(c.includePages, c.excludePages)];
      }
      forall d | d in m
        ensures exists k :: 0 <= k < i + 1 && LastFor(cs, k, i + 1, d, files, project)
                              && m[d] == SpecialPages(cs[k].includePages, cs[k].excludePages)
      {
        if Applies(c, files, project) && d == c.doc {
          assert LastFor(cs, i, i + 1, d, files, project);
        } else {
          var k :| 0 <= k < i && LastFor(cs, k, i, d, files, project)
            && m[d] == SpecialPages(cs[k].includePages, cs[k].excludePages);
          assert LastFor(cs, k, i + 1, d, files, project);
        }
      }
      i := i + 1;
    }
    assert cs[..i] == cs;
  }
}
