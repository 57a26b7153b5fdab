/**
 * The snapshot-service configuration generated for one PDF: the main snapshot
 * (page 1) and one additional snapshot per selected page, each with the viewer
 * script that brings that page into view.
 */
module Snapshots {
  import opened Text
  import opened Pages
  import opened DocRunInfo

  const Host := "localhost"
  const Port := "8080"
  const BaseUrl := "http://" + Host + ":" + Port
  const ViewerUrlPath := "/web/viewer.html?file=/web/projects"
  const WaitForSelector := "div#viewer > div.page[data-loaded]"
  const SuffixPrefix := " | Page "

  /** The `execute` value that refers to the shared `restore-page-state` script. */
  const ReferenceExecute := "*restore-page-state"

  // The viewer scripts. Their JavaScript text is kept as opaque pieces: what the
  // model relies on is where the two placeholders sit.

  /** Removes the first page element of the viewer. */
  const RemoveFirstPage := "document.querySelector('div#viewer').children.item(0).remove();\n"

  /** Brings the (new) first page element into view, clicking "next" when it is the last one. */
  const ShowFirstPage :=
    "document.querySelector('div#viewer').children.length == 1\n"
    + "  ? document.querySelector('button#next').click()\n"
    + "  : document\n"
    + "      .querySelector('div#viewer')\n"
    + "      .children.item(1)\n"
    + "      .scrollIntoView();\n"
    + "document\n"
    + "  .querySelector('div#viewer')\n"
    + "  .children.item(0)\n"
    + "  .scrollIntoView();\n"

  /** The shared script: advance by exactly one page. */
  const StaticScript := RemoveFirstPage + ShowFirstPage

  const NextPlaceholder := "$$dynamicNextIndex$$"
  const CurrentPlaceholder := "$$dynamicCurrentIndex$$"
  const ScriptHead := "let nextIndex = "
  const ScriptMid := ";\nfor(currentIndex = "
  const LoopTail := ";currentIndex < nextIndex; currentIndex++)\n{\n" + RemoveFirstPage + "}\n" + ShowFirstPage

  /** The templated script: remove pages from `current` up to `next`, then show. */
  const DynamicTemplate := ScriptHead + NextPlaceholder + ScriptMid + CurrentPlaceholder + LoopTail

  datatype AdditionalSnapshot = AdditionalSnapshot(suffix: string, waitForSelector: string, execute: string)

  datatype Snapshot = Snapshot(
    name: string,
    url: string,
    waitForSelector: string,
    additionalSnapshots: seq<AdditionalSnapshot>)

  datatype SnapshotConfig = SnapshotConfig(
    baseUrl: string,
    restorePageState: string,
    snapshots: seq<Snapshot>)

  /** The navigation script for moving the viewer from page `current` to page
      `next`: the template with both indices written in. */
  function PageTurnScript(current: nat, next: nat): string {
    ScriptHead + Decimal(next) + ScriptMid + Decimal(current) + LoopTail
  }

  /** Substituting `next` for the first placeholder and then `current` for the
      second, in `head + first + mid + second + tail`, replaces each placeholder once,
      in place, when both placeholders start with `$` and the text before each of
      them has none. */
  lemma SubstituteBoth(head: string, first: string, mid: string, second: string, tail: string, current: string, next: string)
    requires |first| > 0 && first[0] == '$' && |second| > 0 && second[0] == '$'
    requires Lacks(head, '$') && Lacks(mid, '$') && Lacks(next, '$')
    ensures ReplaceFirst(ReplaceFirst(head + first + mid + second + tail, first, next), second, current)
      == head + next + mid + current + tail
  {
    hide ReplaceFirst;
    var rest := mid + second + tail;
    assert head + first + mid + second + tail == head + first + rest;
    ReplaceAfterHead(head, first, rest, next);
    var once := head + next + mid;
    LacksConcat(head, next, '$');
    LacksConcat(head + next, mid, '$');
    assert head + next + rest == once + second + tail;
    ReplaceAfterHead(once, second, tail, current);
  }

  /** Substituting the next page and then the current page into the template
      replaces each placeholder once, at its own place. */
  lemma TemplateSubstitution(current: nat, next: nat)
    ensures ReplaceFirst(ReplaceFirst(DynamicTemplate, NextPlaceholder, Decimal(next)), CurrentPlaceholder, Decimal(current))
      == PageTurnScript(current, next)
  {
    assert Lacks(ScriptHead, '$') && Lacks(ScriptMid, '$');
    DigitsLackDollar(Decimal(next));
    SubstituteBoth(ScriptHead, NextPlaceholder, ScriptMid, CurrentPlaceholder, LoopTail, Decimal(current), Decimal(next));
  }

  /** The page the viewer shows before the `i`-th additional snapshot: the page of
      the previous one, or page 1 before the first. */
  function PreviousPage(pages: seq<nat>, i: nat): nat
    requires i < |pages|
  {
    if i == 0 then 1 else pages[i - 1]
  }

  function Entry(page: nat, previous: nat, useReference: bool): AdditionalSnapshot {
    AdditionalSnapshot(
      SuffixPrefix + Decimal(page),
      WaitForSelector,
      if useReference then ReferenceExecute else PageTurnScript(previous, page))
  }

  /** One additional snapshot per selected page, in page order. */
  function Entries(pages: seq<nat>, useReference: bool): seq<AdditionalSnapshot> {
    seq(|pages|, i requires 0 <= i < |pages| => Entry(pages[i], PreviousPage(pages, i), useReference))
  }

  /** A sequence that agrees with `Entries` at every position is `Entries`. */
  lemma EntriesPointwise(pages: seq<nat>, useReference: bool, entries: seq<AdditionalSnapshot>)
    requires |entries| == |pages|
    requires forall k :: 0 <= k < |pages| ==> entries[k] == Entry(pages[k], PreviousPage(pages, k), useReference)
    ensures entries == Entries(pages, useReference)
  {
  }

  /** The shared reference script is used exactly when the document has no page lists. */
  predicate UsesReference(info: RunInfo) {
    |info.includePages| == 0 && |info.excludePages| == 0
  }

  function SelectedPages(info: RunInfo): seq<nat> {
    SelectPages(info.pdfPageCount, info.includePages, info.excludePages)
  }

  function DocumentUrl(info: RunInfo): string {
    ViewerUrlPath + "/" + info.projectFolder + "/" + info.finalWorkingDir + "/" + info.pdfFileName
  }

  /** The configuration the script generates for the document `info` describes. */
  function SnapshotConfigFor(info: RunInfo): SnapshotConfig {
    SnapshotConfig(
      BaseUrl,
      StaticScript,
      [Snapshot(info.pdfFileName, DocumentUrl(info), WaitForSelector, Entries(SelectedPages(info), UsesReference(info)))])
  }

  /** The body of the walk over the selected pages: the additional snapshot for
      the page at `index`, whose current index is the page before it (or 1). */
  method PageSnapshot(info: RunInfo, pages: seq<nat>, index: nat) returns (entry: AdditionalSnapshot)
    requires index < |pages|
    ensures entry == Entry(pages[index], PreviousPage(pages, index), UsesReference(info))
  {
    var nextIndex := pages[index];
    var currentIndex := 1;
    if index > 0 {
      currentIndex := pages[index - 1];
    }
    var script := ReplaceFirst(DynamicTemplate, NextPlaceholder, Decimal(nextIndex));
    script := ReplaceFirst(script, CurrentPlaceholder, Decimal(currentIndex));
    TemplateSubstitution(currentIndex, nextIndex);
    if |info.includePages| == 0 && |info.excludePages| == 0 {
      entry := AdditionalSnapshot(SuffixPrefix + Decimal(pages[index]), WaitForSelector, ReferenceExecute);
    } else {
      entry := AdditionalSnapshot(SuffixPrefix + Decimal(pages[index]), WaitForSelector, script);
    }
  }

  /** Selects the pages, then walks them in order, pushing one additional
      snapshot per page. */
  method CreateSnapshotConfig(info: RunInfo) returns (config: SnapshotConfig)
    ensures config == SnapshotConfigFor(info)
  {
    hide Entry;
    hide Entries;
    hide SelectPages;
    var pages := SelectPages(info.pdfPageCount, info.includePages, info.excludePages);
    var additional: seq<AdditionalSnapshot> := [];
    var index := 0;
    while index < |pages|
      invariant 0 <= index <= |pages|
      invariant |additional| == index
      invariant forall k :: 0 <= k < index ==> additional[k] == Entry(pages[k], PreviousPage(pages, k), UsesReference(info))
    {
      var entry := PageSnapshot(info, pages, index);
      additional := additional + [entry];
      index := index + 1;
    }
    EntriesPointwise(pages, UsesReference(info), additional);
    config := SnapshotConfig(
      BaseUrl,
      StaticScript,
      [Snapshot(info.pdfFileName, DocumentUrl(info), WaitForSelector, additional)]);
  }

  // ---------------------------------------------------------------------------
  // What the generated configuration promises
  // ---------------------------------------------------------------------------

  /** There is one main snapshot, named after the file, and one additional snapshot
      per selected page, in order; each waits for a loaded page and its suffix
      names its page, which can be read back from it. */
  lemma EntriesFollowPages(info: RunInfo)
    ensures var config := SnapshotConfigFor(info);
      && |config.snapshots| == 1
      && config.snapshots[0].name == info.pdfFileName
      && config.snapshots[0].waitForSelector == WaitForSelector
      && |config.snapshots[0].additionalSnapshots| == |SelectedPages(info)|
    ensures var entries := SnapshotConfigFor(info).snapshots[0].additionalSnapshots;
      forall i :: 0 <= i < |entries| ==>
        && entries[i].waitForSelector == WaitForSelector
        && entries[i].suffix[..|SuffixPrefix|] == SuffixPrefix
        && AllDigits(entries[i].suffix[|SuffixPrefix|..])
        && DecimalValue(entries[i].suffix[|SuffixPrefix|..]) == SelectedPages(info)[i]
  {
    var entries := SnapshotConfigFor(info).snapshots[0].additionalSnapshots;
    var pages := SelectedPages(info);
    forall i | 0 <= i < |entries|
      ensures entries[i].suffix[..|SuffixPrefix|] == SuffixPrefix
      ensures entries[i].suffix[|SuffixPrefix|..] == Decimal(pages[i])
      ensures DecimalValue(entries[i].suffix[|SuffixPrefix|..]) == pages[i]
    {
      assert entries[i].suffix == SuffixPrefix + Decimal(pages[i]);
      DecimalRoundTrip(pages[i]);
    }
  }

  /** Distinct additional snapshots of a document carry distinct suffixes. */
  lemma SuffixesDistinct(info: RunInfo, i: nat, j: nat)
    requires i < j < |SelectedPages(info)|
    ensures var entries := SnapshotConfigFor(info).snapshots[0].additionalSnapshots;
      entries[i].suffix != entries[j].suffix
  {
    var pages := SelectedPages(info);
    var entries := SnapshotConfigFor(info).snapshots[0].additionalSnapshots;
    assert pages[i] < pages[j];
    DecimalInjective(pages[i], pages[j]);
    assert entries[i].suffix[|SuffixPrefix|..] == Decimal(pages[i]);
    assert entries[j].suffix[|SuffixPrefix|..] == Decimal(pages[j]);
  }

  /** With page lists, the `i`-th additional snapshot runs the template with the
      page before it as current index and its own page as next index; the current
      index is always smaller, so the script's loop removes at least one page. */
  lemma NavigationIndices(info: RunInfo, i: nat)
    requires !UsesReference(info)
    requires i < |SelectedPages(info)|
    ensures var pages := SelectedPages(info);
      && PreviousPage(pages, i) < pages[i]
      && (i == 0 ==> PreviousPage(pages, i) == 1)
      && (i > 0 ==> PreviousPage(pages, i) == pages[i - 1])
      && SnapshotConfigFor(info).snapshots[0].additionalSnapshots[i].execute
         == ScriptHead + Decimal(pages[i]) + ScriptMid + Decimal(PreviousPage(pages, i)) + LoopTail
  {
    hide SelectPages;
    hide Decimal;
    var pages := SelectedPages(info);
    var previous := PreviousPage(pages, i);
    assert pages[i] in pages;
    if i > 0 {
      assert pages[i - 1] < pages[i];
    }
    var entries := SnapshotConfigFor(info).snapshots[0].additionalSnapshots;
    assert entries == Entries(pages, false);
    assert entries[i] == Entry(pages[i], previous, false);
  }

  /** Every additional snapshot refers to the shared script when the document has
      no page lists, and none does otherwise. */
  lemma ReferenceIffNoPageLists(info: RunInfo, i: nat)
    requires i < |SelectedPages(info)|
    ensures SnapshotConfigFor(info).snapshots[0].additionalSnapshots[i].execute == ReferenceExecute
      <==> UsesReference(info)
  {
    var pages := SelectedPages(info);
    if !UsesReference(info) {
      var script := ScriptHead + Decimal(pages[i]) + ScriptMid + Decimal(PreviousPage(pages, i)) + LoopTail;
      assert script[0] == 'l';
      assert ReferenceExecute[0] == '*';
    }
  }

  /** Without page lists the selected pages are 2, 3, ..., so every additional
      snapshot is exactly one page after the previous one: the one-page shared
      script does what the template's loop would. */
  lemma ReferenceStepsOnePage(info: RunInfo, i: nat)
    requires UsesReference(info)
    requires i < |SelectedPages(info)|
    ensures SelectedPages(info)[i] == PreviousPage(SelectedPages(info), i) + 1
  {
  }
}
