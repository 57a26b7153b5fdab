/** Which pages of a PDF get an additional snapshot besides the main one. */
module Pages {
  import opened Lists

  /** The candidates for additional snapshots: `Array.from` of length
      `pageCount - 1` mapping index `i` to `i + 2` (empty when that length is not
      positive). */
  function InitialPages(pageCount: nat): (r: seq<nat>)
    ensures StrictlyIncreasing(r)
  {
    seq(if pageCount <= 1 then 0 else pageCount - 1, i => i + 2)
  }

  /** The candidates are exactly pages 2 to `pageCount`; page 1 is never one of
      them, as it is the document's main snapshot. */
  lemma InitialPagesRange(pageCount: nat)
    ensures forall p: int :: p in InitialPages(pageCount) <==> 2 <= p <= pageCount
    ensures 1 !in InitialPages(pageCount)
    ensures pageCount <= 1 <==> InitialPages(pageCount) == []
  {
    var r := InitialPages(pageCount);
    forall p: int | 2 <= p <= pageCount ensures p in r {
      assert r[p - 2] == p;
    }
    if pageCount > 1 {
      assert r[0] == 2;
    }
  }

  /** The pages snapshotted besides page 1: the candidates, kept only if listed in
      `includePages` when that list is non-empty, then dropped if listed in
      `excludePages` when that list is non-empty. */
  function SelectPages(pageCount: nat, includePages: seq<int>, excludePages: seq<int>): (r: seq<nat>)
    ensures StrictlyIncreasing(r)
    ensures forall p: int :: p in r <==>
      && 2 <= p <= pageCount
      && (|includePages| == 0 || p in includePages)
      && p !in excludePages
    ensures |includePages| == 0 && |excludePages| == 0 ==> r == InitialPages(pageCount)
  {
    InitialPagesRange(pageCount);
    var all := InitialPages(pageCount);
    var kept :=
      if |includePages| == 0 then all
      else (
        var f := Filter(all, (p: nat) => p in includePages);
        SubsequenceOfIncreasing(f, all);
        f);
    var left :=
      if |excludePages| == 0 then kept
      else (
        var f := Filter(kept, (p: nat) => p !in excludePages);
        SubsequenceOfIncreasing(f, kept);
        f);
    left
  }
}
