/** Walking the index files of all splits of a diamond. */
module IndexIterators {
  import opened Chunking
  import opened Paths

  datatype SplitDescriptor = SplitDescriptor(split: string, generation: string, fileCount: nat)

  datatype Download = Download(split: string, path: string, index: nat)

  function FilePath(repo: string, diamond: string, s: SplitDescriptor, index: nat): (p: string) {
    Path(SplitFiles(repo, diamond, s.split, s.generation, index))
  }

  /** The downloads for one split: its index files, of its own generation, in order. */
  function Downloads(repo: string, diamond: string, s: SplitDescriptor): (ds: seq<Download>) {
    seq(s.fileCount, i requires 0 <= i < s.fileCount => Download(s.split, FilePath(repo, diamond, s, i), i))
  }

  function AllDownloads(repo: string, diamond: string, splits: seq<SplitDescriptor>): (ds: seq<seq<Download>>) {
    seq(|splits|, i requires 0 <= i < |splits| => Downloads(repo, diamond, splits[i]))
  }

  class AllSplitsIterator {
    const repo: string
    const diamond: string
    const splits: seq<SplitDescriptor>
    var i: nat

    constructor (repo: string, diamond: string, splits: seq<SplitDescriptor>)
      ensures this.repo == repo && this.diamond == diamond && this.splits == splits && i == 0
    {
      this.repo, this.diamond, this.splits, i := repo, diamond, splits, 0;
    }

    /** The next split, and a walk over its files. */
    method Next() returns (id: string, it: IndexIterator?)
      requires i <= |splits|
      modifies this
      ensures it == null <==> old(i) == |splits|
      ensures it != null ==> i == old(i) + 1 && id == splits[old(i)].split && fresh(it)
      ensures it != null ==> it.owner == this && it.i == 0 && it.count == splits[old(i)].fileCount
      ensures it == null ==> i == old(i)
    {
      if i >= |splits| { return "", null; }
      i := i + 1;
      it := new IndexIterator(this, splits[i - 1].fileCount);
      id := splits[i - 1].split;
    }
  }

  /** A walk over the index files of a split. It builds its paths from whichever split its owner is at when
      it is asked, not from the one it was made for. */
  class IndexIterator {
    const owner: AllSplitsIterator
    const count: nat
    var i: nat

    constructor (owner: AllSplitsIterator, count: nat)
      ensures this.owner == owner && this.count == count && i == 0
    {
      this.owner, this.count, i := owner, count, 0;
    }

    method Next() returns (path: string)
      requires i <= count && 0 < owner.i <= |owner.splits|
      modifies this
      ensures old(i) == count ==> path == "" && i == old(i)
      ensures old(i) < count ==> i == old(i) + 1
      ensures old(i) < count ==> path == FilePath(owner.repo, owner.diamond, owner.splits[owner.i - 1], old(i)) && path != ""
    {
      if i >= count { return ""; }
      i := i + 1;
      path := FilePath(owner.repo, owner.diamond, owner.splits[owner.i - 1], i - 1);
    }
  }

  /** The download of an index file of this split: of its own generation, at its documented path. */
  ghost predicate IsDownload(repo: string, diamond: string, s: SplitDescriptor, i: nat, x: Download) {
    && x.split == s.split && x.index == i && i < s.fileCount
    && x.path == "diamonds" + "/" + (repo + "/" + (diamond + "/" + ("splits" + "/" +
        (s.split + "/" + (s.generation + "/" + ("bundle-files-" + Decimal(i) + ".yaml"))))))
  }

  lemma DownloadAt(repo: string, diamond: string, s: SplitDescriptor, i: nat)
    requires i < s.fileCount
    ensures IsDownload(repo, diamond, s, i, Downloads(repo, diamond, s)[i])
  {
    FileListSpelled(SplitFiles(repo, diamond, s.split, s.generation, i));
  }

  /** What is started is, split by split, one download for each of its index files. */
  ghost predicate Started(repo: string, diamond: string, splits: seq<SplitDescriptor>, parts: seq<seq<Download>>) {
    |parts| == |splits| && forall a :: 0 <= a < |splits| ==> StartedFor(repo, diamond, splits[a], parts[a])
  }

  ghost predicate StartedFor(repo: string, diamond: string, s: SplitDescriptor, part: seq<Download>) {
    |part| == s.fileCount && forall i: nat :: i < |part| ==> IsDownload(repo, diamond, s, i, part[i])
  }

  lemma DownloadsStarted(repo: string, diamond: string, splits: seq<SplitDescriptor>)
    ensures Started(repo, diamond, splits, AllDownloads(repo, diamond, splits))
  {
    forall a | 0 <= a < |splits| ensures StartedFor(repo, diamond, splits[a], Downloads(repo, diamond, splits[a])) {
      forall i: nat | i < splits[a].fileCount ensures IsDownload(repo, diamond, splits[a], i, Downloads(repo, diamond, splits[a])[i]) {
        DownloadAt(repo, diamond, splits[a], i);
      }
    }
  }

  /** Parsing the path of a download gives back the split and that split's generation. */
  lemma DownloadParses(isKsuid: string -> bool, repo: string, diamond: string, s: SplitDescriptor, i: nat, x: Download)
    requires IsDownload(repo, diamond, s, i, x) && !isKsuid("") && !isKsuid(SplitFile(false)) && !isKsuid(SplitFile(true))
    requires SlashFree(repo) && SlashFree(diamond) && SlashFree(s.split) && SlashFree(s.generation)
    requires isKsuid(diamond) && s.split != "" && isKsuid(s.generation)
    ensures ParsePath(isKsuid, x.path).Parsed?
    ensures var c := ParsePath(isKsuid, x.path).c;
      && c.repo == repo && c.diamond == diamond && c.split == s.split && c.generation == s.generation
      && c.file == "bundle-files-" + Decimal(i) + ".yaml" && !c.final
  {
    var o := SplitFiles(repo, diamond, s.split, s.generation, i);
    FileListSpelled(o);
    ParseOfPath(isKsuid, o);
  }

  /** Starts one download for each index file of each split, and no other. */
  method DownloadAll(repo: string, diamond: string, splits: seq<SplitDescriptor>) returns (started: seq<Download>)
    ensures exists parts :: Started(repo, diamond, splits, parts) && started == Flatten(parts)
  {
    started := [];
    DownloadsStarted(repo, diamond, splits);
    var all := new AllSplitsIterator(repo, diamond, splits);
    ghost var want := AllDownloads(repo, diamond, splits);
    var id, it := all.Next();
    while it != null
      invariant all.repo == repo && all.diamond == diamond && all.splits == splits && fresh(all) && all.i <= |splits|
      invariant it == null ==> all.i == |splits| && started == Flatten(want)
      invariant it != null ==> fresh(it) && it.owner == all && it.i == 0 && 0 < all.i
      invariant it != null ==> id == splits[all.i - 1].split && it.count == splits[all.i - 1].fileCount
      invariant it != null ==> started == Flatten(want[..all.i - 1])
      decreases it != null, |splits| - all.i
    {
      var files := DownloadSplit(it, id);
      FlattenSnoc(want[..all.i - 1], files);
      assert want[..all.i] == want[..all.i - 1] + [files];
      started := started + files;
      if all.i == |splits| { assert want[..all.i] == want; }
      id, it := all.Next();
    }
  }

  method DownloadSplit(it: IndexIterator, id: string) returns (started: seq<Download>)
    requires it.i == 0 && 0 < it.owner.i <= |it.owner.splits|
    requires id == it.owner.splits[it.owner.i - 1].split && it.count == it.owner.splits[it.owner.i - 1].fileCount
    modifies it
    ensures started == Downloads(it.owner.repo, it.owner.diamond, it.owner.splits[it.owner.i - 1])
  {
    ghost var want := Downloads(it.owner.repo, it.owner.diamond, it.owner.splits[it.owner.i - 1]);
    started := [];
    var index := 0;
    var path := it.Next();
    while path != ""
      invariant index == |started| <= it.count && started == want[..index]
      invariant path == "" ==> index == it.count
      invariant path != "" ==> it.i == index + 1 <= it.count && path == want[index].path
      invariant it.i <= it.count
      decreases path != "", it.count - index
    {
      started := started + [Download(id, path, index)];
      index := index + 1;
      path := it.Next();
    }
  }

  /** No two downloads of a diamond are for the same file, if its splits have different names. */
  lemma DownloadsDistinct(repo: string, diamond: string, a: SplitDescriptor, b: SplitDescriptor, i: nat, j: nat)
    requires SlashFree(repo) && SlashFree(diamond) && SlashFree(a.split) && SlashFree(b.split)
    requires SlashFree(a.generation) && SlashFree(b.generation)
    requires FilePath(repo, diamond, a, i) == FilePath(repo, diamond, b, j)
    ensures a.split == b.split && a.generation == b.generation && i == j
  {
    PathInjective(SplitFiles(repo, diamond, a.split, a.generation, i), SplitFiles(repo, diamond, b.split, b.generation, j));
  }

  /** Advancing to the next split before the walk over the previous one is through sends that walk to the
      files of the wrong split. */
  method WalkAfterNext(repo: string, diamond: string, a: SplitDescriptor, b: SplitDescriptor) returns (path: string)
    requires a.fileCount > 0
    ensures path == FilePath(repo, diamond, b, 0)
  {
    var all := new AllSplitsIterator(repo, diamond, [a, b]);
    var id, first := all.Next();
    var second;
    id, second := all.Next();
    path := first.Next();
  }
}
