/** The splits that a commit merges are those which listing the diamond's keys, page by page, finds done.

    So that no split done in time is left out is a property of the pages that the store returns. */
module DiamondListing {
  import opened Names
  import opened DiamondProtocol
  import L = Listing
  import M = MetadataListing
  import P = Paths
  import C = Chunking

  type Pages = seq<seq<string>>

  /** Where the metadata is: the repo, and what an identifier looks like. */
  datatype Site = Site(isKsuid: string -> bool, repo: string) {
    function Descriptor(d: Id, split: Component, final: bool): (k: string) { P.Path(P.Split(repo, d, split, final)) }

    /** What the listing returns for these pages. */
    function Listed(pages: Pages): (ks: seq<string>) { M.SplitsListed(isKsuid, pages) }

    /** No page of index files only comes before one with a split's descriptor. */
    ghost predicate Gapless(pages: Pages) { L.NoGap(L.Filtered(M.BaseStarts("split-"), pages)) }
  }

  // ---------------------------------------------------------------- a split that is done was running

  predicate Started(st: Store, proc: Proc) {
    proc.Splitter? && (proc.sp.SGo? || proc.sp.SUploading?) ==> SplitRunning(proc.d, proc.split) in st
  }

  /** The running descriptor of a split is there before its upload begins, and so before its final one. */
  ghost predicate RunningFirst(s: State) {
    && (forall p :: p in s.procs ==> Started(s.store, s.procs[p]))
    && (forall d, split :: SplitDone(d, split) in s.store ==> SplitRunning(d, split) in s.store)
  }

  /** A process that is to upload was to before, or has found or created its running record. */
  lemma StartedBy(s: State, step: Step, p: nat)
    requires Enabled(s, step) && p in Next(s, step).procs && (p in s.procs ==> Started(s.store, s.procs[p]))
    ensures Started(Next(s, step).store, Next(s, step).procs[p])
  {
    NextGrows(s, step);
    if step.CreateDiamond? || step.p != p { OthersWait(s, step, p); } else { ActorStarted(s, step); }
  }

  lemma ActorStarted(s: State, step: Step)
    requires Enabled(s, step) && !step.CreateDiamond? && step.p in Next(s, step).procs
    requires step.p in s.procs ==> Started(s.store, s.procs[step.p])
    ensures Started(Next(s, step).store, Next(s, step).procs[step.p])
  {
  }

  lemma FinishedBy(s: State, step: Step, d: Id, split: Component)
    requires Enabled(s, step) && SplitDone(d, split) in Next(s, step).store && SplitDone(d, split) !in s.store
    ensures step.PutSplitDone? && s.procs[step.p].Splitter? && s.procs[step.p].d == d && s.procs[step.p].split == split
  {
  }

  lemma StepKeepsRunningFirst(s: State, step: Step)
    requires RunningFirst(s) && Enabled(s, step)
    ensures RunningFirst(Next(s, step))
  {
    var s' := Next(s, step);
    NextGrows(s, step);
    forall p | p in s'.procs ensures Started(s'.store, s'.procs[p]) { StartedBy(s, step, p); }
    forall d, split | SplitDone(d, split) in s'.store ensures SplitRunning(d, split) in s'.store {
      if SplitDone(d, split) !in s.store {
        FinishedBy(s, step, d, split);
        assert Started(s.store, s.procs[step.p]);
      }
    }
  }

  lemma {:induction false} RunKeepsRunningFirst(s: State, steps: seq<Step>)
    requires RunningFirst(s) && IsRun(s, steps)
    ensures RunningFirst(After(s, steps))
    decreases |steps|
  {
    if steps != [] {
      StepKeepsRunningFirst(s, steps[0]);
      RunKeepsRunningFirst(Next(s, steps[0]), steps[1..]);
    }
  }

  // ---------------------------------------------------------------- one listing

  /** The pages show what was in the store when the listing began: both descriptors of the splits that were done. */
  ghost predicate Shows(w: Site, d: Id, due: set<Component>, pages: Pages) {
    && M.SplitPages(w.isKsuid, w.repo, d, pages)
    && forall split, final :: split in due ==>
         P.SlashFree(split) && split != "" && w.Descriptor(d, split, final) in C.Flatten(pages)
  }

  /** The commit takes every split of which the final descriptor is listed. */
  ghost predicate Takes(w: Site, d: Id, splits: seq<SplitRec>, pages: Pages) {
    forall split :: w.Descriptor(d, split, true) in w.Listed(pages) ==> Has(splits, split)
  }

  /** Gapless pages list every split that was done when the listing began as done. */
  lemma DueIsListed(w: Site, d: Id, due: set<Component>, pages: Pages, split: Component)
    requires Shows(w, d, due, pages) && w.Gapless(pages) && split in due
    ensures w.Descriptor(d, split, true) in w.Listed(pages)
  {
    var all, listed := C.Flatten(pages), w.Listed(pages);
    assert w.Descriptor(d, split, false) in all && w.Descriptor(d, split, true) in all;
    M.AllSplitsListed(w.isKsuid, w.repo, d, pages, split);
    assert L.For(M.ParserOf(w.isKsuid), d + split, listed) == [w.Descriptor(d, split, true)];
    L.FilterIn(L.Is(M.ParserOf(w.isKsuid), d + split), listed, w.Descriptor(d, split, true));
  }

  // ---------------------------------------------------------------- every listing of a run

  /** The merge that begins takes what a listing of gapless pages gave. */
  ghost predicate MergesListed(w: Site, s: State, step: Step, pages: Pages) {
    step.BeginMerge? && step.p in s.procs && s.procs[step.p].Committer? && s.procs[step.p].cp.CCollecting? ==>
      && w.Gapless(pages)
      && Shows(w, s.procs[step.p].d, s.procs[step.p].cp.due, pages)
      && Takes(w, s.procs[step.p].d, s.procs[step.p].cp.splits, pages)
  }

  /** With the pages that were listed before each merge of the run. */
  ghost predicate RunMergesListed(w: Site, s: State, steps: seq<Step>, pages: seq<Pages>)
    requires IsRun(s, steps) && |pages| == |steps|
    decreases |steps|
  {
    steps == [] || (MergesListed(w, s, steps[0], pages[0]) && RunMergesListed(w, Next(s, steps[0]), steps[1..], pages[1..]))
  }

  lemma ListedHasNoGap(w: Site, s: State, step: Step, pages: Pages)
    requires MergesListed(w, s, step, pages)
    ensures NoGap(s, step)
  {
    if step.BeginMerge? && step.p in s.procs && s.procs[step.p].Committer? && s.procs[step.p].cp.CCollecting? {
      var c := s.procs[step.p];
      forall split | split in c.cp.due ensures Has(c.cp.splits, split) {
        DueIsListed(w, c.d, c.cp.due, pages, split);
      }
    }
  }

  lemma {:induction false} RunHasNoGapIfListed(w: Site, s: State, steps: seq<Step>, pages: seq<Pages>)
    requires IsRun(s, steps) && |pages| == |steps| && RunMergesListed(w, s, steps, pages)
    ensures RunHasNoGap(s, steps)
    decreases |steps|
  {
    if steps != [] {
      ListedHasNoGap(w, s, steps[0], pages[0]);
      RunHasNoGapIfListed(w, Next(s, steps[0]), steps[1..], pages[1..]);
    }
  }

  /** A split that is done before any committer of the diamond begins to list was running before, and every bundle
      committed for the diamond from then on has it, when merges take what gapless pages list. */
  lemma ListedInTimeIsCommitted(w: Site, steps: seq<Step>, more: seq<Step>, pages: seq<Pages>, d: Id, split: Component)
    requires IsRun(Init(), steps) && IsRun(After(Init(), steps), more)
    requires |pages| == |more| && RunMergesListed(w, After(Init(), steps), more, pages)
    requires var s := After(Init(), steps);
      && SplitDone(d, split) in s.store
      && (forall p :: p in s.procs && s.procs[p].Committer? && s.procs[p].d == d ==> !s.procs[p].cp.CCollecting? && !s.procs[p].cp.CReading?)
    ensures var s, t := After(Init(), steps), After(After(Init(), steps), more);
      && SplitRunning(d, split) in s.store
      && (forall b :: b in t.commits && b !in s.commits && t.commits[b].d == d ==> Has(t.commits[b].splits, split))
      && (DiamondDone(d) in t.store && t.store[DiamondDone(d)].Done? && t.store[DiamondDone(d)].bundle !in s.commits ==>
            Has(t.store[DiamondDone(d)].splits, split))
  {
    var s := After(Init(), steps);
    var t := After(s, more);
    RunKeepsRunningFirst(Init(), steps);
    RunHasNoGapIfListed(w, s, more, pages);
    DoneInTimeIsCommitted(s, more, d, split, s.commits.Keys);
    if DiamondDone(d) in t.store && t.store[DiamondDone(d)].Done? && t.store[DiamondDone(d)].bundle !in s.commits {
      CommittedHasEarlySplit(steps, more, d, split);
    }
  }
}
