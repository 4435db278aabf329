/** Listing the diamonds of a repo and the splits of a diamond, by the keys they are really stored under. */
module MetadataListing {
  import opened Chunking
  import opened Listing
  import P = Paths

  // ---------------------------------------------------------------- the order of keys

  /** Keys are listed in lexicographic order. */
  predicate Before(a: string, b: string)
    decreases |a|
  {
    if b == "" then false
    else if a == "" then true
    else if a[0] != b[0] then a[0] < b[0]
    else Before(a[1..], b[1..])
  }

  lemma {:induction false} BeforeAfterPrefix(p: string, a: string, b: string)
    ensures Before(p + a, p + b) <==> Before(a, b)
  {
    if p == "" {
      assert p + a == a && p + b == b;
    } else {
      var x, y := p + a, p + b;
      BeforeAfterPrefix(p[1..], a, b);
      assert x[1..] == p[1..] + a && y[1..] == p[1..] + b;
      assert x != "" && y != "" && x[0] == y[0];
      assert Before(x, y) == Before(x[1..], y[1..]);
    }
  }

  lemma {:induction false} NeverBeforeItself(a: string)
    ensures !Before(a, a)
  {
    if a != "" { NeverBeforeItself(a[1..]); }
  }

  // ---------------------------------------------------------------- what keys say

  /** What the merge of states reads off a key: the object is the diamond and split identifiers, one after the other. */
  function KeyAbout(isKsuid: string -> bool, k: string): (r: Parsed) {
    match P.ParsePath(isKsuid, k)
    case Invalid => Malformed
    case Parsed(c) => if c.split == "" && c.diamond == "" then Other else Descriptor(c.diamond + c.split, c.final)
  }

  function ParserOf(isKsuid: string -> bool): (p: Parser)
    ensures forall k :: p(k) == KeyAbout(isKsuid, k)
  {
    k => KeyAbout(isKsuid, k)
  }

  /** No unique identifier is empty or looks like a split's descriptor. */
  ghost predicate Ksuids(isKsuid: string -> bool) {
    !isKsuid("") && !isKsuid(P.SplitFile(false)) && !isKsuid(P.SplitFile(true))
  }

  /** The key is the path of this object, whose names and identifiers are in order. */
  ghost predicate KeyOf(isKsuid: string -> bool, k: string, o: P.Object) {
    P.Clean(o) && P.Identified(isKsuid, o) && k == P.Path(o)
  }

  lemma DiamondKeySays(isKsuid: string -> bool, k: string, o: P.Object)
    requires Ksuids(isKsuid) && o.Diamond? && KeyOf(isKsuid, k, o)
    ensures KeyAbout(isKsuid, k) == Descriptor(o.diamond, o.final)
  {
    P.ParseOfPath(isKsuid, o);
    assert o.diamond + "" == o.diamond;
  }

  lemma SplitKeySays(isKsuid: string -> bool, k: string, o: P.Object)
    requires Ksuids(isKsuid) && o.Split? && KeyOf(isKsuid, k, o)
    ensures KeyAbout(isKsuid, k) == Descriptor(o.diamond + o.split, o.final)
  {
    P.ParseOfPath(isKsuid, o);
  }

  /** Paths that differ only in their last component are ordered as those components are. */
  lemma LastDecides(dir: seq<string>, a: string, b: string)
    requires dir != []
    ensures Before(P.Join(dir + [a]), P.Join(dir + [b])) <==> Before(a, b)
  {
    P.JoinLast(dir, a);
    P.JoinLast(dir, b);
    BeforeAfterPrefix(P.Join(dir) + "/", a, b);
  }

  lemma DoneBeforeRunning()
    ensures !Before(P.DiamondFile(false), P.DiamondFile(true)) && !Before(P.SplitFile(false), P.SplitFile(true))
    ensures Before(P.DiamondFile(true), P.DiamondFile(false)) && Before(P.SplitFile(true), P.SplitFile(false))
  {
    assert P.DiamondFile(true) == "diamond-" + "done.yaml" && P.DiamondFile(false) == "diamond-" + "running.yaml";
    assert P.SplitFile(true) == "split-" + "done.yaml" && P.SplitFile(false) == "split-" + "running.yaml";
    assert "done.yaml"[0] == 'd' && "running.yaml"[0] == 'r';
    BeforeAfterPrefix("diamond-", "done.yaml", "running.yaml");
    BeforeAfterPrefix("diamond-", "running.yaml", "done.yaml");
    BeforeAfterPrefix("split-", "done.yaml", "running.yaml");
    BeforeAfterPrefix("split-", "running.yaml", "done.yaml");
  }

  lemma DiamondPath(repo: string, d: string, f: bool)
    ensures P.Path(P.Diamond(repo, d, f)) == P.Join(["diamonds", repo, d] + [P.DiamondFile(f)])
  {
    assert P.Parts(P.Diamond(repo, d, f)) == ["diamonds", repo, d] + [P.DiamondFile(f)];
  }

  lemma SplitPath(repo: string, d: string, s: string, f: bool)
    ensures P.Path(P.Split(repo, d, s, f)) == P.Join(["diamonds", repo, d, "splits", s] + [P.SplitFile(f)])
  {
    assert P.Parts(P.Split(repo, d, s, f)) == ["diamonds", repo, d, "splits", s] + [P.SplitFile(f)];
  }

  /** A diamond's final descriptor is listed before its running one. */
  lemma DiamondDoneIsFirst(repo: string, d: string)
    ensures !Before(P.Path(P.Diamond(repo, d, false)), P.Path(P.Diamond(repo, d, true)))
  {
    DiamondPath(repo, d, true);
    DiamondPath(repo, d, false);
    DoneBeforeRunning();
    LastDecides(["diamonds", repo, d], P.DiamondFile(false), P.DiamondFile(true));
  }

  /** And so is a split's. */
  lemma SplitDoneIsFirst(repo: string, d: string, s: string)
    ensures !Before(P.Path(P.Split(repo, d, s, false)), P.Path(P.Split(repo, d, s, true)))
  {
    SplitPath(repo, d, s, true);
    SplitPath(repo, d, s, false);
    DoneBeforeRunning();
    LastDecides(["diamonds", repo, d, "splits", s], P.SplitFile(false), P.SplitFile(true));
  }

  // ---------------------------------------------------------------- what is listed for one object

  /** Its final descriptor if there is one, else its running one, and nothing if it never began. */
  ghost function Expected(all: seq<string>, running: string, final: string): (r: seq<string>) {
    if running !in all then [] else if final in all then [final] else [running]
  }

  lemma ListedIsExpected(parse: Parser, less: Order, keys: seq<string>, o: string, running: string, final: string)
    requires Sorted(less, keys) && Naming(parse, less, keys)
    requires parse(running) == Descriptor(o, false) && parse(final) == Descriptor(o, true)
    requires forall k :: k in keys && About(parse, o, k) ==> k == running || k == final
    ensures For(parse, o, Run(parse, keys).1) == Expected(keys, running, final)
  {
    ListedOnce(parse, less, o, keys);
    var listed := For(parse, o, Run(parse, keys).1);
    if running in keys {
      assert About(parse, o, running) && Running(parse, running);
      assert Best(parse, o, keys, listed[0]);
      if final in keys { assert About(parse, o, final) && Done(parse, final); }
      assert listed == [listed[0]];
    } else {
      forall r | r in keys && About(parse, o, r) ensures !Running(parse, r) { assert r == final; }
    }
  }

  // ---------------------------------------------------------------- the diamonds of a repo

  /** What is stored under the diamonds of a repo. */
  ghost predicate Stored(isKsuid: string -> bool, repo: string, k: string, o: P.Object) {
    (o.Diamond? || o.Split? || o.SplitFiles?) && o.repo == repo && KeyOf(isKsuid, k, o)
  }

  ghost predicate RepoKey(isKsuid: string -> bool, repo: string, k: string) { exists o :: Stored(isKsuid, repo, k, o) }

  /** The base name of the key starts as asked for. */
  function BaseStarts(prefix: string): (keep: string -> bool)
    ensures forall k :: keep(k) <==> prefix <= P.Base(k)
  {
    k => prefix <= P.Base(k)
  }

  lemma FileNamesStart(f: bool, index: nat)
    ensures "diamond-" <= P.DiamondFile(f) && "split-" <= P.SplitFile(f)
    ensures !("diamond-" <= P.SplitFile(f)) && !("split-" <= P.DiamondFile(f))
    ensures !("diamond-" <= P.IndexFile(index)) && !("split-" <= P.IndexFile(index))
  {
    assert P.DiamondFile(f)[..8] == "diamond-" && P.SplitFile(f)[..6] == "split-";
    assert P.DiamondFile(f)[0] == 'd' && P.SplitFile(f)[0] == 's' && P.IndexFile(index)[0] == 'b';
    assert "diamond-"[0] == 'd' && "split-"[0] == 's';
  }

  /** The filter keeps the diamonds' descriptors and nothing below them. */
  lemma KeptIsDiamond(isKsuid: string -> bool, repo: string, k: string, o: P.Object)
    requires Stored(isKsuid, repo, k, o)
    ensures BaseStarts("diamond-")(k) <==> o.Diamond?
  {
    P.BaseOfPath(o);
    FileNamesStart(if o.SplitFiles? then false else o.final, if o.SplitFiles? then o.index else 0);
  }

  ghost predicate DiamondKey(isKsuid: string -> bool, repo: string, k: string, d: string, f: bool) {
    KeyOf(isKsuid, k, P.Diamond(repo, d, f))
  }

  lemma KeptDiamond(isKsuid: string -> bool, repo: string, all: seq<string>, k: string) returns (d: string, f: bool)
    requires (forall x :: x in all ==> RepoKey(isKsuid, repo, x)) && k in Filter(BaseStarts("diamond-"), all)
    ensures DiamondKey(isKsuid, repo, k, d, f)
  {
    FilterIn(BaseStarts("diamond-"), all, k);
    var o :| Stored(isKsuid, repo, k, o);
    KeptIsDiamond(isKsuid, repo, k, o);
    d, f := o.diamond, o.final;
    assert o == P.Diamond(repo, d, f);
  }

  /** The names of a repo's diamond descriptors are as the merge of states relies on. */
  lemma DiamondNaming(isKsuid: string -> bool, repo: string, all: seq<string>)
    requires Ksuids(isKsuid) && forall x :: x in all ==> RepoKey(isKsuid, repo, x)
    ensures Naming(ParserOf(isKsuid), Before, Filter(BaseStarts("diamond-"), all))
  {
    var keys, parse := Filter(BaseStarts("diamond-"), all), ParserOf(isKsuid);
    forall k | k in keys ensures !Before(k, k) { NeverBeforeItself(k); }
    forall a, b | a in keys && b in keys && parse(a).Descriptor? && parse(a) == parse(b) ensures a == b {
      var d, f := KeptDiamond(isKsuid, repo, all, a);
      var e, g := KeptDiamond(isKsuid, repo, all, b);
      DiamondKeySays(isKsuid, a, P.Diamond(repo, d, f));
      DiamondKeySays(isKsuid, b, P.Diamond(repo, e, g));
    }
    forall a, b | a in keys && b in keys && Done(parse, a) && Running(parse, b) && parse(a).id == parse(b).id ensures !Before(b, a) {
      var d, f := KeptDiamond(isKsuid, repo, all, a);
      var e, g := KeptDiamond(isKsuid, repo, all, b);
      DiamondKeySays(isKsuid, a, P.Diamond(repo, d, f));
      DiamondKeySays(isKsuid, b, P.Diamond(repo, e, g));
      DiamondDoneIsFirst(repo, d);
    }
  }

  /** Both descriptors of a diamond are kept by the filter if they are stored, and no others are about it. */
  lemma DiamondKeys(isKsuid: string -> bool, repo: string, all: seq<string>, d: string)
    requires Ksuids(isKsuid) && isKsuid(d) && P.SlashFree(repo) && P.SlashFree(d) && forall x :: x in all ==> RepoKey(isKsuid, repo, x)
    ensures var keys, run, fin := Filter(BaseStarts("diamond-"), all), P.Path(P.Diamond(repo, d, false)), P.Path(P.Diamond(repo, d, true));
      && KeyAbout(isKsuid, run) == Descriptor(d, false) && KeyAbout(isKsuid, fin) == Descriptor(d, true)
      && (run in keys <==> run in all) && (fin in keys <==> fin in all)
      && forall k :: k in keys && About(ParserOf(isKsuid), d, k) ==> k == run || k == fin
  {
    var keys, run, fin := Filter(BaseStarts("diamond-"), all), P.Diamond(repo, d, false), P.Diamond(repo, d, true);
    DiamondKeySays(isKsuid, P.Path(run), run);
    DiamondKeySays(isKsuid, P.Path(fin), fin);
    KeptIsDiamond(isKsuid, repo, P.Path(run), run);
    KeptIsDiamond(isKsuid, repo, P.Path(fin), fin);
    FilterIn(BaseStarts("diamond-"), all, P.Path(run));
    FilterIn(BaseStarts("diamond-"), all, P.Path(fin));
    forall k | k in keys && About(ParserOf(isKsuid), d, k) ensures k == P.Path(run) || k == P.Path(fin) {
      var e, g := KeptDiamond(isKsuid, repo, all, k);
      DiamondKeySays(isKsuid, k, P.Diamond(repo, e, g));
    }
  }

  ghost predicate DiamondListed(isKsuid: string -> bool, repo: string, all: seq<string>, listed: seq<string>, d: string) {
    For(ParserOf(isKsuid), d, listed) == Expected(all, P.Path(P.Diamond(repo, d, false)), P.Path(P.Diamond(repo, d, true)))
  }

  /** Lists the diamonds of a repo from any pages of the sorted keys below it: each initialized diamond once, by
      its final descriptor if it has one, as long as the filter empties no page before the last ones. */
  method ListDiamonds(isKsuid: string -> bool, repo: string, pages: seq<seq<string>>) returns (listed: seq<string>)
    requires Ksuids(isKsuid) && P.SlashFree(repo)
    requires Sorted(Before, Flatten(pages)) && forall k :: k in Flatten(pages) ==> RepoKey(isKsuid, repo, k)
    ensures NoGap(Filtered(BaseStarts("diamond-"), pages)) ==>
      forall d | isKsuid(d) && P.SlashFree(d) :: DiamondListed(isKsuid, repo, Flatten(pages), listed, d)
  {
    var keep := BaseStarts("diamond-");
    ghost var all, keys := Flatten(pages), Filter(keep, Flatten(pages));
    FilteredFlat(keep, pages);
    FilterSorted(keep, Before, all);
    DiamondNaming(isKsuid, repo, all);
    listed := ListKeys(keep, ParserOf(isKsuid), Before, pages);
    if NoGap(Filtered(keep, pages)) {
      forall d | isKsuid(d) && P.SlashFree(d)
        ensures DiamondListed(isKsuid, repo, all, listed, d)
      {
        DiamondKeys(isKsuid, repo, all, d);
        ListedIsExpected(ParserOf(isKsuid), Before, keys, d, P.Path(P.Diamond(repo, d, false)), P.Path(P.Diamond(repo, d, true)));
      }
    }
  }

  // ---------------------------------------------------------------- the splits of a diamond

  /** What is stored under the splits of a diamond. */
  ghost predicate SplitStored(isKsuid: string -> bool, repo: string, d: string, k: string, o: P.Object) {
    (o.Split? || o.SplitFiles?) && o.repo == repo && o.diamond == d && KeyOf(isKsuid, k, o)
  }

  ghost predicate SplitsKey(isKsuid: string -> bool, repo: string, d: string, k: string) { exists o :: SplitStored(isKsuid, repo, d, k, o) }

  lemma KeptIsSplit(isKsuid: string -> bool, repo: string, d: string, k: string, o: P.Object)
    requires SplitStored(isKsuid, repo, d, k, o)
    ensures BaseStarts("split-")(k) <==> o.Split?
  {
    P.BaseOfPath(o);
    FileNamesStart(if o.SplitFiles? then false else o.final, if o.SplitFiles? then o.index else 0);
  }

  ghost predicate SplitKey(isKsuid: string -> bool, repo: string, d: string, k: string, s: string, f: bool) {
    KeyOf(isKsuid, k, P.Split(repo, d, s, f))
  }

  lemma KeptSplit(isKsuid: string -> bool, repo: string, d: string, all: seq<string>, k: string) returns (s: string, f: bool)
    requires (forall x :: x in all ==> SplitsKey(isKsuid, repo, d, x)) && k in Filter(BaseStarts("split-"), all)
    ensures SplitKey(isKsuid, repo, d, k, s, f)
  {
    FilterIn(BaseStarts("split-"), all, k);
    var o :| SplitStored(isKsuid, repo, d, k, o);
    KeptIsSplit(isKsuid, repo, d, k, o);
    s, f := o.split, o.final;
    assert o == P.Split(repo, d, s, f);
  }

  lemma SameRest(d: string, s: string, t: string)
    requires d + s == d + t
    ensures s == t
  {
    assert (d + s)[|d|..] == s && (d + t)[|d|..] == t;
  }

  /** The names of a diamond's split descriptors are as the merge of states relies on. */
  lemma SplitNaming(isKsuid: string -> bool, repo: string, d: string, all: seq<string>)
    requires Ksuids(isKsuid) && forall x :: x in all ==> SplitsKey(isKsuid, repo, d, x)
    ensures Naming(ParserOf(isKsuid), Before, Filter(BaseStarts("split-"), all))
  {
    var keys, parse := Filter(BaseStarts("split-"), all), ParserOf(isKsuid);
    forall k | k in keys ensures !Before(k, k) { NeverBeforeItself(k); }
    forall a, b | a in keys && b in keys && parse(a).Descriptor? && parse(a) == parse(b) ensures a == b {
      var s, f := KeptSplit(isKsuid, repo, d, all, a);
      var t, g := KeptSplit(isKsuid, repo, d, all, b);
      SplitKeySays(isKsuid, a, P.Split(repo, d, s, f));
      SplitKeySays(isKsuid, b, P.Split(repo, d, t, g));
      SameRest(d, s, t);
    }
    forall a, b | a in keys && b in keys && Done(parse, a) && Running(parse, b) && parse(a).id == parse(b).id ensures !Before(b, a) {
      var s, f := KeptSplit(isKsuid, repo, d, all, a);
      var t, g := KeptSplit(isKsuid, repo, d, all, b);
      SplitKeySays(isKsuid, a, P.Split(repo, d, s, f));
      SplitKeySays(isKsuid, b, P.Split(repo, d, t, g));
      SameRest(d, s, t);
      SplitDoneIsFirst(repo, d, s);
    }
  }

  lemma SplitKeys(isKsuid: string -> bool, repo: string, d: string, all: seq<string>, s: string)
    requires Ksuids(isKsuid) && isKsuid(d) && P.SlashFree(repo) && P.SlashFree(d) && P.SlashFree(s) && s != ""
    requires forall x :: x in all ==> SplitsKey(isKsuid, repo, d, x)
    ensures var keys, run, fin := Filter(BaseStarts("split-"), all), P.Path(P.Split(repo, d, s, false)), P.Path(P.Split(repo, d, s, true));
      && KeyAbout(isKsuid, run) == Descriptor(d + s, false) && KeyAbout(isKsuid, fin) == Descriptor(d + s, true)
      && (run in keys <==> run in all) && (fin in keys <==> fin in all)
      && forall k :: k in keys && About(ParserOf(isKsuid), d + s, k) ==> k == run || k == fin
  {
    var keys, run, fin := Filter(BaseStarts("split-"), all), P.Split(repo, d, s, false), P.Split(repo, d, s, true);
    SplitKeySays(isKsuid, P.Path(run), run);
    SplitKeySays(isKsuid, P.Path(fin), fin);
    KeptIsSplit(isKsuid, repo, d, P.Path(run), run);
    KeptIsSplit(isKsuid, repo, d, P.Path(fin), fin);
    FilterIn(BaseStarts("split-"), all, P.Path(run));
    FilterIn(BaseStarts("split-"), all, P.Path(fin));
    forall k | k in keys && About(ParserOf(isKsuid), d + s, k) ensures k == P.Path(run) || k == P.Path(fin) {
      var t, g := KeptSplit(isKsuid, repo, d, all, k);
      SplitKeySays(isKsuid, k, P.Split(repo, d, t, g));
      SameRest(d, s, t);
    }
  }

  ghost predicate SplitListed(isKsuid: string -> bool, repo: string, d: string, all: seq<string>, listed: seq<string>, s: string) {
    For(ParserOf(isKsuid), d + s, listed) == Expected(all, P.Path(P.Split(repo, d, s, false)), P.Path(P.Split(repo, d, s, true)))
  }

  /** What is listed of a diamond's splits, from these pages of its keys. */
  function SplitsListed(isKsuid: string -> bool, pages: seq<seq<string>>): (listed: seq<string>) {
    Run(ParserOf(isKsuid), Flatten(UpToEmpty(Filtered(BaseStarts("split-"), pages)))).1
  }

  /** Pages of keys of this diamond's split objects, in order. */
  ghost predicate SplitPages(isKsuid: string -> bool, repo: string, d: string, pages: seq<seq<string>>) {
    && Ksuids(isKsuid) && isKsuid(d) && P.SlashFree(repo) && P.SlashFree(d)
    && Sorted(Before, Flatten(pages)) && forall k :: k in Flatten(pages) ==> SplitsKey(isKsuid, repo, d, k)
  }

  lemma AllSplitsListed(isKsuid: string -> bool, repo: string, d: string, pages: seq<seq<string>>, s: string)
    requires SplitPages(isKsuid, repo, d, pages) && NoGap(Filtered(BaseStarts("split-"), pages)) && P.SlashFree(s) && s != ""
    ensures SplitListed(isKsuid, repo, d, Flatten(pages), SplitsListed(isKsuid, pages), s)
  {
    var keep := BaseStarts("split-");
    var all, keys := Flatten(pages), Filter(keep, Flatten(pages));
    FilteredFlat(keep, pages);
    FilterSorted(keep, Before, all);
    SplitNaming(isKsuid, repo, d, all);
    NoGapIsAll(Filtered(keep, pages));
    SplitKeys(isKsuid, repo, d, all, s);
    ListedIsExpected(ParserOf(isKsuid), Before, keys, d + s, P.Path(P.Split(repo, d, s, false)), P.Path(P.Split(repo, d, s, true)));
  }

  /** Lists the splits of a diamond in the same way. */
  method ListSplits(isKsuid: string -> bool, repo: string, d: string, pages: seq<seq<string>>) returns (listed: seq<string>)
    requires SplitPages(isKsuid, repo, d, pages)
    ensures listed == SplitsListed(isKsuid, pages)
    ensures NoGap(Filtered(BaseStarts("split-"), pages)) ==>
      forall s | P.SlashFree(s) && s != "" :: SplitListed(isKsuid, repo, d, Flatten(pages), listed, s)
  {
    var keep := BaseStarts("split-");
    ghost var all := Flatten(pages);
    FilteredFlat(keep, pages);
    FilterSorted(keep, Before, all);
    SplitNaming(isKsuid, repo, d, all);
    listed := ListKeys(keep, ParserOf(isKsuid), Before, pages);
    if NoGap(Filtered(keep, pages)) {
      forall s | P.SlashFree(s) && s != ""
        ensures SplitListed(isKsuid, repo, d, all, listed, s)
      {
        AllSplitsListed(isKsuid, repo, d, pages, s);
      }
    }
  }

  /** A first page of index files only, as of a split with many of them, hides every split: the listing is empty. */
  method IndexFilesHideSplits(isKsuid: string -> bool, repo: string, d: string, pages: seq<seq<string>>) returns (listed: seq<string>)
    requires pages != [] && forall k :: k in pages[0] ==> exists o :: SplitStored(isKsuid, repo, d, k, o) && o.SplitFiles?
    ensures listed == []
  {
    var keep := BaseStarts("split-");
    forall k | k in pages[0] ensures !keep(k) {
      var o :| SplitStored(isKsuid, repo, d, k, o) && o.SplitFiles?;
      KeptIsSplit(isKsuid, repo, d, k, o);
    }
    FilterNone(keep, pages[0]);
    var batches := FetchKeys(keep, pages);
    assert Filtered(keep, pages)[0] == [];
    assert batches == [];
    var out := MergeKeys(ParserOf(isKsuid), batches);
    listed := Concatenate(out);
  }

  lemma {:induction false} FilterNone(keep: string -> bool, keys: seq<string>)
    requires forall k :: k in keys ==> !keep(k)
    ensures Filter(keep, keys) == []
    decreases |keys|
  {
    if keys != [] { FilterNone(keep, keys[..|keys| - 1]); }
  }
}
