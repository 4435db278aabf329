/** What a committed diamond holds, in terms of what its splits uploaded. */
module DiamondOutcome {
  import opened Names
  import opened Merge
  import opened MergeOrder
  import opened Chunking
  import opened DiamondProtocol

  // ---------------------------------------------------------------- batches and arrivals

  lemma {:induction false} ArrivalsOrigin(batches: seq<Batch>, y: nat) returns (x: nat)
    requires y < |Arrivals(batches)|
    ensures x < |batches| && Arrivals(batches)[y].split == batches[x].split
    ensures Arrivals(batches)[y].file in batches[x].entries
  {
    var n := |batches| - 1;
    var before := Arrivals(batches[..n]);
    if y < |before| {
      x := ArrivalsOrigin(batches[..n], y);
    } else {
      x := n;
    }
  }

  lemma {:induction false} ArrivalsMember(batches: seq<Batch>, x: nat, e: Entry)
    requires x < |batches| && e in batches[x].entries
    ensures Arrival(batches[x].split, e) in Arrivals(batches)
  {
    var n := |batches| - 1;
    if x < n {
      ArrivalsMember(batches[..n], x, e);
      assert batches[..n][x] == batches[x];
    } else {
      var i :| 0 <= i < |batches[n].entries| && batches[n].entries[i] == e;
      assert Tagged(batches[n].split, batches[n].entries)[i] == Arrival(batches[n].split, e);
    }
  }

  ghost predicate DistinctNames(entries: seq<Entry>) {
    forall i, j :: 0 <= i < j < |entries| ==> entries[i].name != entries[j].name
  }

  /** No two batches of the same split share a name. */
  ghost predicate Apart(a: Batch, b: Batch) {
    a.split == b.split ==> forall e, f :: e in a.entries && f in b.entries ==> e.name != f.name
  }

  lemma {:induction false} ArrivalsUnique(batches: seq<Batch>)
    requires forall x :: 0 <= x < |batches| ==> DistinctNames(batches[x].entries)
    requires forall x, y :: 0 <= x < y < |batches| ==> Apart(batches[x], batches[y])
    ensures UniquePerSplit(Arrivals(batches))
  {
    if batches != [] {
      var n := |batches| - 1;
      assert forall x :: 0 <= x < n ==> batches[..n][x] == batches[x];
      ArrivalsUnique(batches[..n]);
      var before, all := Arrivals(batches[..n]), Arrivals(batches);
      forall i, j | 0 <= i < j < |all|
        ensures all[i].split != all[j].split || all[i].file.name != all[j].file.name
      {
        if j < |before| {
          assert all[i] == before[i] && all[j] == before[j];
        } else if i < |before| {
          var x := ArrivalsOrigin(batches[..n], i);
          assert Apart(batches[x], batches[n]);
          assert all[j].file in batches[n].entries;
        } else {
          assert DistinctNames(batches[n].entries);
        }
      }
    }
  }

  // ---------------------------------------------------------------- the lists of one attempt

  lemma ListPosition(files: seq<Entry>, a: nat, x: nat)
    requires a < |Lists(files)| && x < |Lists(files)[a]|
    ensures a * PER_FILE + x < |files| && Lists(files)[a][x] == files[a * PER_FILE + x] && x < PER_FILE
  {
    ChunkAt(files, PER_FILE, a);
  }

  lemma ListsApart(files: seq<Entry>, a: nat, b: nat, split: Component)
    requires DistinctNames(files) && a < |Lists(files)| && b < |Lists(files)|
    ensures DistinctNames(Lists(files)[a])
    ensures a != b ==> Apart(Batch(split, Lists(files)[a]), Batch(split, Lists(files)[b]))
  {
    forall x, y | 0 <= x < y < |Lists(files)[a]|
      ensures Lists(files)[a][x].name != Lists(files)[a][y].name
    {
      ListPosition(files, a, x);
      ListPosition(files, a, y);
    }
    forall e, f | a != b && e in Lists(files)[a] && f in Lists(files)[b]
      ensures e.name != f.name
    {
      var x :| 0 <= x < |Lists(files)[a]| && Lists(files)[a][x] == e;
      var y :| 0 <= y < |Lists(files)[b]| && Lists(files)[b][y] == f;
      ListPosition(files, a, x);
      ListPosition(files, b, y);
    }
  }

  lemma {:induction false} InSomeChunk<T>(cs: seq<seq<T>>, x: T) returns (i: nat)
    requires x in Flatten(cs)
    ensures i < |cs| && x in cs[i]
  {
    if x in cs[0] {
      i := 0;
    } else {
      i := InSomeChunk(cs[1..], x);
      i := i + 1;
    }
  }

  // ---------------------------------------------------------------- what a commit has read

  /** What a commit has read are lists of the attempts behind its splits. */
  ghost predicate HasRead(s: State, c: Commit) { ReadsOk(s, c.d, c.splits, c.order, c.batches) }

  lemma BatchShape(s: State, c: Commit, x: nat)
    requires Inv(s) && HasRead(s, c) && x < |c.order|
    ensures var r := c.splits[c.order[x].0];
      && r.gen in s.attempts && AttemptOk(s.attempts[r.gen]) && s.attempts[r.gen].split == r.split
      && c.order[x].1 < |Lists(s.attempts[r.gen].files)|
      && c.batches[x] == Batch(r.split, Lists(s.attempts[r.gen].files)[c.order[x].1])
  {
    assert ReadOk(s, c.splits, c.order[x], c.batches[x]);
    assert SplitRecOk(s, c.d, c.splits[c.order[x].0]);
    assert AttemptOk(s.attempts[c.splits[c.order[x].0].gen]);
  }

  lemma BatchesApart(s: State, c: Commit, x: nat, y: nat)
    requires Inv(s) && HasRead(s, c) && x < y < |c.order|
    ensures Apart(c.batches[x], c.batches[y])
  {
    BatchShape(s, c, x);
    BatchShape(s, c, y);
    if c.batches[x].split == c.batches[y].split {
      assert c.order[x].0 == c.order[y].0;
      assert c.order[x] != c.order[y];
      var r := c.splits[c.order[x].0];
      ListsApart(s.attempts[r.gen].files, c.order[x].1, c.order[y].1, r.split);
    }
  }

  /** What reaches the merger satisfies its assumptions, in whatever order lists were downloaded. */
  lemma CommitReadsGoodInputs(s: State, c: Commit)
    requires Inv(s) && HasRead(s, c)
    ensures Inputs(Arrivals(c.batches))
  {
    forall x | 0 <= x < |c.batches| ensures DistinctNames(c.batches[x].entries) {
      BatchShape(s, c, x);
      var r := c.splits[c.order[x].0];
      ListsApart(s.attempts[r.gen].files, c.order[x].1, c.order[x].1, r.split);
    }
    forall x, y | 0 <= x < y < |c.batches| ensures Apart(c.batches[x], c.batches[y]) {
      BatchesApart(s, c, x, y);
    }
    ArrivalsUnique(c.batches);
    var arr := Arrivals(c.batches);
    forall i | 0 <= i < |arr|
      ensures Uploadable(arr[i].file.name) && Proper(arr[i].split) && arr[i].file.stamp > 0
    {
      var x := ArrivalsOrigin(c.batches, i);
      BatchShape(s, c, x);
      var files := s.attempts[c.splits[c.order[x].0].gen].files;
      var l := c.batches[x].entries;
      var z :| 0 <= z < |l| && l[z] == arr[i].file;
      ListPosition(files, c.order[x].1, z);
    }
  }

  /** Every file of every recorded split's attempt reaches the merger. */
  lemma CommitReadsEverything(s: State, c: Commit, j: nat, f: Entry)
    requires Inv(s) && CommitOk(s, c) && j < |c.splits|
    requires c.splits[j].gen in s.attempts && f in s.attempts[c.splits[j].gen].files
    ensures Arrival(c.splits[j].split, f) in Arrivals(c.batches)
  {
    var r := c.splits[j];
    var files := s.attempts[r.gen].files;
    assert SplitRecOk(s, c.d, r);
    ChunksShape(files, PER_FILE);
    var i := InSomeChunk(Lists(files), f);
    assert (j, i) in c.order;
    var x :| 0 <= x < |c.order| && c.order[x] == (j, i);
    BatchShape(s, c, x);
    ArrivalsMember(c.batches, x, f);
  }

  /** Nothing else reaches it: every arrival is a file of a recorded split's attempt. */
  lemma CommitReadsNothingElse(s: State, c: Commit, a: Arrival) returns (j: nat)
    requires Inv(s) && HasRead(s, c) && a in Arrivals(c.batches)
    ensures j < |c.splits| && c.splits[j].split == a.split
    ensures c.splits[j].gen in s.attempts && a.file in s.attempts[c.splits[j].gen].files
  {
    var arr := Arrivals(c.batches);
    var y :| 0 <= y < |arr| && arr[y] == a;
    var x := ArrivalsOrigin(c.batches, y);
    BatchShape(s, c, x);
    j := c.order[x].0;
    var l := c.batches[x].entries;
    var z :| 0 <= z < |l| && l[z] == a.file;
    ListPosition(s.attempts[c.splits[j].gen].files, c.order[x].1, z);
  }

  // ---------------------------------------------------------------- end to end

  /** The committed record of a diamond, after any run. */
  ghost predicate Committed(steps: seq<Step>, d: Id) {
    && IsRun(Init(), steps)
    && DiamondDone(d) in After(Init(), steps).store
    && After(Init(), steps).store[DiamondDone(d)].Done?
  }

  ghost function CommitOf(steps: seq<Step>, d: Id): (c: Commit)
    requires Committed(steps, d)
    ensures var s := After(Init(), steps);
      Inv(s) && CommitOk(s, c) && c.d == d && c.splits == s.store[DiamondDone(d)].splits
    ensures var s := After(Init(), steps); BundleHolds(s.store, s.store[DiamondDone(d)].bundle, c.out)
  {
    var s := After(Init(), steps);
    RunKeepsInv(Init(), steps);
    CommittedBundleIsComplete(steps, d);
    assert RecordOk(s, DiamondDone(d));
    var c := s.commits[s.store[DiamondDone(d)].bundle];
    assert CommitOk(s, c);
    c
  }

  /** The file's hash is in the bundle, at its own path or at its special location under a recorded split. */
  ghost predicate Kept(c: Commit, f: Entry) {
    exists i :: 0 <= i < |c.out| && c.out[i].hash == f.hash && IsPlaceFor(c, f.name, c.out[i].name)
  }

  ghost predicate IsPlaceFor(c: Commit, name: Name, place: Name) {
    || place == name
    || (c.mode.EnableConflicts? && exists k :: 0 <= k < |c.splits| && place == [".conflicts", c.splits[k].split] + name)
    || (c.mode.EnableCheckpoints? && exists k :: 0 <= k < |c.splits| && place == [".checkpoints", c.splits[k].split] + name)
  }

  /** The default location of a file under one of the splits is such a place. */
  lemma SpecialIsPlace(c: Commit, k: nat, name: Name)
    requires Deconflicts(c.mode) && k < |c.splits| && Proper(c.splits[k].split) && Uploadable(name)
    ensures IsPlaceFor(c, name, DefaultDeconflicter(c.mode)(c.splits[k].split, name))
  {
    DefaultLocations(c.splits[k].split, name);
  }

  lemma HashHasPlace(s: State, c: Commit, f: Entry) returns (place: Name)
    requires Inv(s) && CommitOk(s, c) && Deconflicts(c.mode) && Uploadable(f.name)
    requires f.name in MergeOf(c.mode, c.batches).index
    requires Held(DefaultDeconflicter(c.mode), Arrivals(c.batches), MergeOf(c.mode, c.batches).index, f.name, f.hash)
    ensures place in MergeOf(c.mode, c.batches).index
    ensures MergeOf(c.mode, c.batches).index[place].file.hash == f.hash && IsPlaceFor(c, f.name, place)
  {
    var slot, arr, m := DefaultDeconflicter(c.mode), Arrivals(c.batches), MergeOf(c.mode, c.batches).index;
    if m[f.name].file.hash == f.hash {
      place := f.name;
    } else {
      var z :| 0 <= z < |arr| && HeldBy(slot, arr[z].split, m, f.name, f.hash);
      var k := CommitReadsNothingElse(s, c, arr[z]);
      place := slot(c.splits[k].split, f.name);
      CommitReadsGoodInputs(s, c);
      SpecialIsPlace(c, k, f.name);
    }
  }

  lemma CommitKeepsVersion(s: State, c: Commit, j: nat, f: Entry)
    requires Inv(s) && CommitOk(s, c) && Deconflicts(c.mode) && j < |c.splits|
    requires c.splits[j].gen in s.attempts && f in s.attempts[c.splits[j].gen].files
    ensures Kept(c, f)
  {
    var slot, arr := DefaultDeconflicter(c.mode), Arrivals(c.batches);
    var m := MergeOf(c.mode, c.batches).index;
    CommitReadsEverything(s, c, j, f);
    var y :| 0 <= y < |arr| && arr[y] == Arrival(c.splits[j].split, f);
    assert Uploadable(f.name) by { CommitReadsGoodInputs(s, c); }
    assert f.name in m && Held(slot, arr, m, f.name, f.hash) by {
      CommitReadsGoodInputs(s, c);
      DefaultSeparates(c.mode);
      MergeLosesNothing(c.mode, slot, arr);
      assert Held(slot, arr, m, arr[y].file.name, arr[y].file.hash);
    }
    var place := HashHasPlace(s, c, f);
    var i :| 0 <= i < |c.out| && c.out[i].name == place;
    assert SameFile(c.out[i], m[place].file);
  }

  /** In every run, a diamond committed with conflicts or checkpoints on stores, in the lists of its bundle,
      every version of every file that its recorded splits' winning attempts uploaded. */
  lemma CommittedKeepsEveryVersion(steps: seq<Step>, d: Id)
    requires Committed(steps, d) && Deconflicts(CommitOf(steps, d).mode)
    ensures var s, c := After(Init(), steps), CommitOf(steps, d);
      forall j, f | 0 <= j < |c.splits| && c.splits[j].gen in s.attempts && f in s.attempts[c.splits[j].gen].files ::
        Kept(c, f)
  {
    var s, c := After(Init(), steps), CommitOf(steps, d);
    forall j, f | 0 <= j < |c.splits| && c.splits[j].gen in s.attempts && f in s.attempts[c.splits[j].gen].files
      ensures Kept(c, f)
    {
      CommitKeepsVersion(s, c, j, f);
    }
  }

  /** Where an arrival's file ended up is a place for it. */
  lemma OriginHasPlace(s: State, c: Commit, a: Arrival, k: Name, e: MergeEntry)
    requires Inv(s) && CommitOk(s, c) && Deconflicts(c.mode) && Uploadable(a.file.name)
    requires From(DefaultDeconflicter(c.mode), Arrivals(c.batches), a, k, e)
    ensures IsPlaceFor(c, a.file.name, k)
  {
    var slot, arr := DefaultDeconflicter(c.mode), Arrivals(c.batches);
    if k != a.file.name {
      var z :| 0 <= z < |arr| && k == slot(arr[z].split, a.file.name);
      var x := CommitReadsNothingElse(s, c, arr[z]);
      CommitReadsGoodInputs(s, c);
      SpecialIsPlace(c, x, a.file.name);
    }
  }

  /** The file is one the split's winning attempt uploaded. */
  ghost predicate UploadedBy(s: State, c: Commit, j: nat, f: Entry) {
    j < |c.splits| && c.splits[j].gen in s.attempts && f in s.attempts[c.splits[j].gen].files
  }

  /** The `i`-th entry of the bundle is that file, at its path or at a special location of it. */
  ghost predicate ComesFrom(s: State, c: Commit, i: nat, j: nat, f: Entry) {
    && UploadedBy(s, c, j, f) && i < |c.out|
    && c.out[i].hash == f.hash && c.out[i].size == f.size && IsPlaceFor(c, f.name, c.out[i].name)
  }

  ghost predicate HasOrigin(s: State, c: Commit, i: nat) { exists j, f :: ComesFrom(s, c, i, j, f) }

  lemma OriginExists(s: State, c: Commit, i: nat, j: nat, f: Entry)
    requires ComesFrom(s, c, i, j, f)
    ensures HasOrigin(s, c, i)
  {
  }

  /** The upload an entry of the bundle comes from. */
  lemma Origin(s: State, c: Commit, i: nat) returns (j: nat, f: Entry)
    requires Inv(s) && CommitOk(s, c) && Deconflicts(c.mode) && i < |c.out|
    ensures ComesFrom(s, c, i, j, f)
  {
    var slot, arr, m, e := DefaultDeconflicter(c.mode), Arrivals(c.batches), MergeOf(c.mode, c.batches).index, c.out[i];
    assert SameFile(e, m[e.name].file);
    assert Accounted(slot, arr, e.name, m[e.name]) by {
      CommitReadsGoodInputs(s, c);
      DefaultSeparates(c.mode);
      MergeLosesNothing(c.mode, slot, arr);
    }
    var y :| 0 <= y < |arr| && From(slot, arr, arr[y], e.name, m[e.name]);
    assert Uploadable(arr[y].file.name) by { CommitReadsGoodInputs(s, c); }
    OriginHasPlace(s, c, arr[y], e.name, m[e.name]);
    j := CommitReadsNothingElse(s, c, arr[y]);
    f := arr[y].file;
  }

  /** Conversely, every file of the bundle is a file one of those splits uploaded, at its path or moved to a
      special location of it. */
  lemma CommittedInventsNothing(steps: seq<Step>, d: Id, i: nat)
    requires Committed(steps, d) && Deconflicts(CommitOf(steps, d).mode)
    requires i < |CommitOf(steps, d).out|
    ensures HasOrigin(After(Init(), steps), CommitOf(steps, d), i)
  {
    var s, c := After(Init(), steps), CommitOf(steps, d);
    var j, f := Origin(s, c, i);
    OriginExists(s, c, i, j, f);
  }

  /** In every run, a diamond committed with conflicts forbidden proves that its splits agreed: two of their
      files with the same name have the same hash, and each of them is in the bundle under its own name. */
  lemma CommittedForbidMeansAgreement(steps: seq<Step>, d: Id, j: nat, f: Entry, k: nat, g: Entry)
    requires Committed(steps, d) && CommitOf(steps, d).mode.ForbidConflicts?
    requires j < |CommitOf(steps, d).splits| && k < |CommitOf(steps, d).splits|
    requires var s, c := After(Init(), steps), CommitOf(steps, d);
      && c.splits[j].gen in s.attempts && f in s.attempts[c.splits[j].gen].files
      && c.splits[k].gen in s.attempts && g in s.attempts[c.splits[k].gen].files
    ensures f.name == g.name ==> f.hash == g.hash
    ensures var c := CommitOf(steps, d);
      exists i :: 0 <= i < |c.out| && c.out[i].name == f.name && c.out[i].hash == f.hash
  {
    var s, c := After(Init(), steps), CommitOf(steps, d);
    ForbidHolds(s, c, j, f);
    ForbidHolds(s, c, k, g);
    var m := MergeOf(c.mode, c.batches).index;
    var i :| 0 <= i < |c.out| && c.out[i].name == f.name;
    assert SameFile(c.out[i], m[f.name].file);
  }

  /** A forbidding merge holds every uploaded file's hash at the file's own name. */
  lemma ForbidHolds(s: State, c: Commit, j: nat, f: Entry)
    requires Inv(s) && CommitOk(s, c) && c.mode.ForbidConflicts? && UploadedBy(s, c, j, f)
    ensures MergeOf(c.mode, c.batches).Merged?
    ensures var m := MergeOf(c.mode, c.batches).index; f.name in m && m[f.name].file.hash == f.hash
  {
    var slot, arr := DefaultDeconflicter(c.mode), Arrivals(c.batches);
    CommitReadsEverything(s, c, j, f);
    CommitReadsGoodInputs(s, c);
    ForbidIffAgree(slot, arr);
    var x :| 0 <= x < |arr| && arr[x] == Arrival(c.splits[j].split, f);
    var m := MergeOf(c.mode, c.batches).index;
    assert arr[x].file.name in m && m[arr[x].file.name].file.hash == arr[x].file.hash;
  }
}
