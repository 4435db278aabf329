/** Merging the file lists of the splits of a diamond, in whatever order they are downloaded. */
module Merge {
  import opened Names

  datatype Entry = Entry(hash: string, name: Name, size: nat, stamp: nat) // stamp 0 is the zero time
  datatype Mode = IgnoreConflicts | EnableCheckpoints | EnableConflicts | ForbidConflicts

  /** A file as the merge index holds it, with the split that uploaded it. */
  datatype MergeEntry = MergeEntry(file: Entry, split: Component)
  type Index = map<Name, MergeEntry>

  /** One file of one split's lists, as it reaches the merger. */
  datatype Arrival = Arrival(split: Component, file: Entry)

  datatype Merged = Merged(index: Index, conflicts: nat) | GivenUp | Panicked

  predicate Deconflicts(mode: Mode) { mode.EnableConflicts? || mode.EnableCheckpoints? }

  /** Renames a file that conflicts, given a split: the merger's `deconflicter`. */
  type Deconflicter = (Component, Name) -> Name

  function Root(mode: Mode): (r: Component)
    ensures Proper(r) && r in {CONFLICTS, CHECKPOINTS}
  {
    if mode.EnableCheckpoints? then CHECKPOINTS else CONFLICTS
  }

  /** The renaming a diamond uses by default. */
  function DefaultDeconflicter(mode: Mode): (r: Deconflicter) {
    (split: Component, name: Name) => JoinUnder(Root(mode), split, name)
  }

  /** For clean names: `.conflicts/{split}/{path}`, and `.checkpoints/{split}/{path}` in checkpoints mode. */
  lemma DefaultLocations(split: Component, name: Name)
    requires Proper(split) && Normal(name)
    ensures DefaultDeconflicter(EnableConflicts)(split, name) == [".conflicts", split] + name
    ensures DefaultDeconflicter(EnableCheckpoints)(split, name) == [".checkpoints", split] + name
  {
    JoinVerbatim(".conflicts", split, name);
    JoinVerbatim(".checkpoints", split, name);
  }

  /** A renaming never hits an upload's own path, and distinct splits and paths get distinct places. */
  ghost predicate Separates(slot: Deconflicter) {
    && (forall s: Component, n: Name, p: Name ::
          Proper(s) && Uploadable(n) && Uploadable(p) ==> slot(s, n) != p)
    && (forall s1: Component, n1: Name, s2: Component, n2: Name ::
          Proper(s1) && Uploadable(n1) && Proper(s2) && Uploadable(n2) && slot(s1, n1) == slot(s2, n2)
          ==> s1 == s2 && n1 == n2)
  }

  lemma DefaultSeparates(mode: Mode)
    ensures Separates(DefaultDeconflicter(mode))
  {
    var slot := DefaultDeconflicter(mode);
    forall s: Component, n: Name, p: Name | Proper(s) && Uploadable(n) && Uploadable(p)
      ensures slot(s, n) != p
    {
      JoinVerbatim(Root(mode), s, n);
    }
    forall s1: Component, n1: Name, s2: Component, n2: Name |
      Proper(s1) && Uploadable(n1) && Proper(s2) && Uploadable(n2) && slot(s1, n1) == slot(s2, n2)
      ensures s1 == s2 && n1 == n2
    {
      JoinInjective(Root(mode), s1, n1, s2, n2);
    }
  }

  /** One turn of the merge loop. */
  function MergeOne(mode: Mode, slot: Deconflicter, m: Index, conflicts: nat, a: Arrival): (r: Merged) {
    var file := a.file;
    if file.name !in m then
      Merged(m[file.name := MergeEntry(file, a.split)], conflicts)
    else
      var existing := m[file.name];
      if file.hash == existing.file.hash then Merged(m, conflicts)
      else if file.stamp == 0 then Panicked
      else if file.stamp > existing.file.stamp then
        if mode.IgnoreConflicts? || a.split == existing.split then
          Merged(m[file.name := MergeEntry(file, a.split)], conflicts)
        else if mode.ForbidConflicts? then GivenUp
        else
          // the older file moves to the location of the split that brought the newer one
          var moved := existing.file.(name := slot(a.split, existing.file.name));
          Merged(m[moved.name := existing.(file := moved)][file.name := MergeEntry(file, a.split)], conflicts + 1)
      else if a.split == existing.split then Merged(m, conflicts)
      else
        match mode
        case IgnoreConflicts => Merged(m, conflicts)
        case ForbidConflicts => GivenUp
        case _ =>
          var moved := file.(name := slot(a.split, existing.file.name));
          Merged(m[slot(a.split, file.name) := MergeEntry(moved, a.split)], conflicts + 1)
  }

  /** A file without a time brings the merge down exactly if it conflicts. */
  lemma PanicsIff(mode: Mode, slot: Deconflicter, m: Index, conflicts: nat, a: Arrival)
    ensures MergeOne(mode, slot, m, conflicts, a) == Panicked <==>
      a.file.name in m && m[a.file.name].file.hash != a.file.hash && a.file.stamp == 0
    ensures MergeOne(mode, slot, m, conflicts, a) == GivenUp <==>
      && mode.ForbidConflicts? && a.file.stamp > 0
      && a.file.name in m && m[a.file.name].file.hash != a.file.hash && m[a.file.name].split != a.split
  {
  }

  /** The whole merge of an arrival sequence. */
  function MergeAll(mode: Mode, slot: Deconflicter, arr: seq<Arrival>): (r: Merged) {
    if arr == [] then Merged(map[], 0)
    else
      var n := |arr| - 1;
      match MergeAll(mode, slot, arr[..n])
      case Merged(m, c) => MergeOne(mode, slot, m, c, arr[n])
      case failed => failed
  }

  /** A downloaded index file: entries of one split. */
  datatype Batch = Batch(split: Component, entries: seq<Entry>)

  function Arrivals(batches: seq<Batch>): (r: seq<Arrival>) {
    if batches == [] then []
    else
      var n := |batches| - 1;
      Arrivals(batches[..n]) + Tagged(batches[n].split, batches[n].entries)
  }

  function Tagged(split: Component, entries: seq<Entry>): (r: seq<Arrival>)
    ensures |r| == |entries|
    ensures forall i :: 0 <= i < |r| ==> r[i] == Arrival(split, entries[i])
  {
    seq(|entries|, i requires 0 <= i < |entries| => Arrival(split, entries[i]))
  }

  lemma {:induction false} MergeAllFails(mode: Mode, slot: Deconflicter, arr: seq<Arrival>, k: nat)
    requires k <= |arr| && !MergeAll(mode, slot, arr[..k]).Merged?
    ensures MergeAll(mode, slot, arr) == MergeAll(mode, slot, arr[..k])
    decreases |arr|
  {
    if k == |arr| {
      assert arr[..k] == arr;
    } else {
      var n := |arr| - 1;
      assert arr[..n][..k] == arr[..k];
      MergeAllFails(mode, slot, arr[..n], k);
    }
  }

  /** One more entry of a batch is merged, or ends the merge. */
  lemma NextArrival(mode: Mode, slot: Deconflicter, done: seq<Arrival>, tagged: seq<Arrival>, i: nat)
    requires i < |tagged| && MergeAll(mode, slot, done + tagged[..i]).Merged?
    ensures var before := MergeAll(mode, slot, done + tagged[..i]);
      var res := MergeOne(mode, slot, before.index, before.conflicts, tagged[i]);
      && MergeAll(mode, slot, done + tagged[..i + 1]) == res
      && (!res.Merged? ==> MergeAll(mode, slot, done + tagged) == res)
  {
    var upTo := done + tagged[..i + 1];
    assert upTo[..|upTo| - 1] == done + tagged[..i] && upTo[|upTo| - 1] == tagged[i];
    if !MergeAll(mode, slot, upTo).Merged? {
      assert (done + tagged)[..|upTo|] == upTo;
      MergeAllFails(mode, slot, done + tagged, |upTo|);
    }
  }

  /** The inner loop of the merger, over the entries of one batch. */
  method MergeBatch(mode: Mode, slot: Deconflicter, m: Index, c: nat, batch: Batch, ghost done: seq<Arrival>) returns (r: Merged)
    requires MergeAll(mode, slot, done) == Merged(m, c)
    ensures r == MergeAll(mode, slot, done + Tagged(batch.split, batch.entries))
  {
    ghost var tagged := Tagged(batch.split, batch.entries);
    ghost var all := done + tagged;
    var mergeIndex, conflicts := m, c;
    assert done + tagged[..0] == done;
    var i := 0;
    while i < |batch.entries|
      invariant 0 <= i <= |batch.entries|
      invariant MergeAll(mode, slot, done + tagged[..i]) == Merged(mergeIndex, conflicts)
    {
      var res := MergeOne(mode, slot, mergeIndex, conflicts, Arrival(batch.split, batch.entries[i]));
      NextArrival(mode, slot, done, tagged, i);
      if !res.Merged? { return res; }
      mergeIndex, conflicts := res.index, res.conflicts;
      i := i + 1;
    }
    assert done + tagged[..|tagged|] == all;
    return Merged(mergeIndex, conflicts);
  }

  /** The merger's outer loop, over batches in the order they were downloaded. */
  method MergeSplits(mode: Mode, slot: Deconflicter, batches: seq<Batch>) returns (r: Merged)
    ensures r == MergeAll(mode, slot, Arrivals(batches))
  {
    var mergeIndex: Index, conflicts := map[], 0;
    var b := 0;
    ghost var done: seq<Arrival> := [];
    while b < |batches|
      invariant 0 <= b <= |batches|
      invariant done == Arrivals(batches[..b])
      invariant MergeAll(mode, slot, done) == Merged(mergeIndex, conflicts)
    {
      var res := MergeBatch(mode, slot, mergeIndex, conflicts, batches[b], done);
      ArrivalsSnoc(batches, b);
      done := done + Tagged(batches[b].split, batches[b].entries);
      if !res.Merged? {
        ArrivalsPrefix(batches, b + 1);
        assert Arrivals(batches)[..|done|] == done;
        MergeAllFails(mode, slot, Arrivals(batches), |done|);
        return res;
      }
      mergeIndex, conflicts := res.index, res.conflicts;
      b := b + 1;
    }
    assert batches[..|batches|] == batches;
    return Merged(mergeIndex, conflicts);
  }

  lemma ArrivalsSnoc(batches: seq<Batch>, b: nat)
    requires b < |batches|
    ensures Arrivals(batches[..b + 1]) == Arrivals(batches[..b]) + Tagged(batches[b].split, batches[b].entries)
  {
    assert batches[..b + 1][..b] == batches[..b];
  }

  lemma {:induction false} ArrivalsPrefix(batches: seq<Batch>, k: nat)
    requires k <= |batches|
    ensures Arrivals(batches[..k]) <= Arrivals(batches)
    decreases |batches|
  {
    if k == |batches| {
      assert batches[..k] == batches;
    } else {
      var n := |batches| - 1;
      ArrivalsPrefix(batches[..n], k);
      assert batches[..n][..k] == batches[..k];
    }
  }

  // ---------------------------------------------------------------- a split's own versions

  /** No two splits list the same path. */
  ghost predicate Unshared(arr: seq<Arrival>) {
    forall i, j :: 0 <= i < |arr| && 0 <= j < |arr| && arr[i].file.name == arr[j].file.name ==> arr[i].split == arr[j].split
  }

  /** What is held at a path is one of its arrivals. */
  ghost predicate HeldFrom(arr: seq<Arrival>, m: Index) {
    forall k :: k in m ==> exists i :: 0 <= i < |arr| && Holds(arr[i], k, m[k])
  }

  predicate Holds(a: Arrival, k: Name, e: MergeEntry) { a.file.name == k && e == MergeEntry(a.file, a.split) }

  lemma HeldFromMore(arr: seq<Arrival>, m: Index, a: Arrival)
    requires HeldFrom(arr, m)
    ensures HeldFrom(arr + [a], m) && HeldFrom(arr + [a], m[a.file.name := MergeEntry(a.file, a.split)])
  {
    var all := arr + [a];
    forall k | k in m ensures exists i :: 0 <= i < |all| && Holds(all[i], k, m[k]) {
      var i :| 0 <= i < |arr| && Holds(arr[i], k, m[k]);
      assert Holds(all[i], k, m[k]);
    }
    assert Holds(all[|arr|], a.file.name, MergeEntry(a.file, a.split));
  }

  lemma OwnStep(mode: Mode, slot: Deconflicter, before: seq<Arrival>, m: Index, c: nat, a: Arrival)
    requires HeldFrom(before, m) && a.file.stamp > 0
    requires forall i :: 0 <= i < |before| && before[i].file.name == a.file.name ==> before[i].split == a.split
    ensures MergeOne(mode, slot, m, c, a) == MergeOne(IgnoreConflicts, slot, m, c, a)
    ensures MergeOne(mode, slot, m, c, a).Merged? && MergeOne(mode, slot, m, c, a).conflicts == c
    ensures HeldFrom(before + [a], MergeOne(mode, slot, m, c, a).index)
  {
    HeldFromMore(before, m, a);
    if a.file.name in m {
      var i :| 0 <= i < |before| && Holds(before[i], a.file.name, m[a.file.name]);
    }
  }

  /** Versions of a path that one split lists never conflict: every mode merges them as if conflicts were ignored. */
  lemma {:induction false} OwnVersionsNeverConflict(mode: Mode, slot: Deconflicter, arr: seq<Arrival>)
    requires Unshared(arr) && forall i :: 0 <= i < |arr| ==> arr[i].file.stamp > 0
    ensures MergeAll(mode, slot, arr) == MergeAll(IgnoreConflicts, slot, arr)
    ensures MergeAll(mode, slot, arr).Merged? && MergeAll(mode, slot, arr).conflicts == 0 && HeldFrom(arr, MergeAll(mode, slot, arr).index)
  {
    if arr != [] {
      var n := |arr| - 1;
      var before := arr[..n];
      assert forall i :: 0 <= i < n ==> before[i] == arr[i];
      OwnVersionsNeverConflict(mode, slot, before);
      OwnStep(mode, slot, before, MergeAll(mode, slot, before).index, 0, arr[n]);
      assert arr == before + [arr[n]];
    }
  }

  // ---------------------------------------------------------------- what the inputs look like

  /** Each split lists a path once, under a clean name and with an upload time. */
  ghost predicate Inputs(arr: seq<Arrival>) {
    && (forall i :: 0 <= i < |arr| ==> Uploadable(arr[i].file.name) && Proper(arr[i].split) && arr[i].file.stamp > 0)
    && UniquePerSplit(arr)
  }

  ghost predicate UniquePerSplit(arr: seq<Arrival>) {
    forall i, j :: 0 <= i < j < |arr| ==> arr[i].split != arr[j].split || arr[i].file.name != arr[j].file.name
  }

  /** A further arrival that keeps the sequence well formed. */
  ghost predicate Joins(arr: seq<Arrival>, a: Arrival) {
    && Inputs(arr)
    && Uploadable(a.file.name) && Proper(a.split) && a.file.stamp > 0
    && (forall i :: 0 <= i < |arr| ==> arr[i].split != a.split || arr[i].file.name != a.file.name)
  }

  function Paths(arr: seq<Arrival>): (r: set<Name>) { set i | 0 <= i < |arr| :: arr[i].file.name }

  // ---------------------------------------------------------------- conflicts and checkpoints lose nothing

  /** The hash is in the index at the path itself or at its special location under one of the splits. */
  ghost predicate Held(slot: Deconflicter, arr: seq<Arrival>, m: Index, name: Name, hash: string) {
    || (name in m && m[name].file.hash == hash)
    || exists j :: 0 <= j < |arr| && HeldBy(slot, arr[j].split, m, name, hash)
  }

  ghost predicate HeldBy(slot: Deconflicter, split: Component, m: Index, name: Name, hash: string) {
    slot(split, name) in m && m[slot(split, name)].file.hash == hash
  }

  /** The entry at `k` is the arrival's file, left in place or moved to a special location. */
  ghost predicate From(slot: Deconflicter, arr: seq<Arrival>, a: Arrival, k: Name, e: MergeEntry) {
    && e == MergeEntry(a.file.(name := k), a.split)
    && (k == a.file.name || exists j :: 0 <= j < |arr| && k == slot(arr[j].split, a.file.name))
  }

  /** A key that only the arrival's split may have created. */
  ghost predicate Makes(slot: Deconflicter, a: Arrival, k: Name) {
    k == a.file.name || k == slot(a.split, a.file.name)
  }

  ghost predicate Accounted(slot: Deconflicter, arr: seq<Arrival>, k: Name, e: MergeEntry) {
    && e.file.name == k
    && (exists i :: 0 <= i < |arr| && From(slot, arr, arr[i], k, e))
    && (exists i :: 0 <= i < |arr| && Makes(slot, arr[i], k))
  }

  ghost predicate AllHeld(slot: Deconflicter, arr: seq<Arrival>, m: Index) {
    && (forall i :: 0 <= i < |arr| ==> arr[i].file.name in m)
    && (forall i {:trigger Held(slot, arr, m, arr[i].file.name, arr[i].file.hash)} ::
          0 <= i < |arr| ==> Held(slot, arr, m, arr[i].file.name, arr[i].file.hash))
  }

  ghost predicate AllAccounted(slot: Deconflicter, arr: seq<Arrival>, m: Index) {
    forall k {:trigger Accounted(slot, arr, k, m[k])} :: k in m ==> Accounted(slot, arr, k, m[k])
  }

  ghost predicate NothingLost(slot: Deconflicter, arr: seq<Arrival>, m: Index, conflicts: nat) {
    && AllHeld(slot, arr, m)
    && AllAccounted(slot, arr, m)
    && |m| == |Paths(arr)| + conflicts
  }

  lemma PathsSnoc(arr: seq<Arrival>, a: Arrival)
    ensures |Paths(arr + [a])| == |Paths(arr)| + (if a.file.name in Paths(arr) then 0 else 1)
  {
    var all := arr + [a];
    forall n | n in Paths(arr)
      ensures n in Paths(all)
    {
      var i :| 0 <= i < |arr| && arr[i].file.name == n;
      assert all[i] == arr[i];
    }
    assert all[|arr|].file.name in Paths(all);
    assert Paths(all) == Paths(arr) + {a.file.name};
    if a.file.name in Paths(arr) {
      assert Paths(all) == Paths(arr);
    }
  }

  /** The location a new arrival may write to is neither a path nor already taken. */
  lemma SlotIsFree(slot: Deconflicter, arr: seq<Arrival>, a: Arrival, m: Index)
    requires Separates(slot) && Joins(arr, a) && AllAccounted(slot, arr, m)
    ensures slot(a.split, a.file.name) !in m
    ensures slot(a.split, a.file.name) != a.file.name
  {
    var place := slot(a.split, a.file.name);
    if place in m {
      assert Accounted(slot, arr, place, m[place]);
      var i :| 0 <= i < |arr| && Makes(slot, arr[i], place);
      assert false;
    }
  }

  /** The file held at a path came from another split that listed that very path. */
  lemma HeadOrigin(slot: Deconflicter, arr: seq<Arrival>, a: Arrival, e: MergeEntry) returns (i: nat)
    requires Separates(slot) && Joins(arr, a) && Accounted(slot, arr, a.file.name, e)
    ensures i < |arr| && arr[i].file.name == a.file.name
    ensures e == MergeEntry(arr[i].file, arr[i].split) && e.split != a.split
  {
    var name := a.file.name;
    i :| 0 <= i < |arr| && From(slot, arr, arr[i], name, e);
    assert name == arr[i].file.name;
  }

  /** Hashes stay held as long as entries stay in place or move to the location of the new split. */
  lemma HeldMoves(slot: Deconflicter, arr: seq<Arrival>, a: Arrival, m: Index, m': Index, name: Name, hash: string)
    requires Separates(slot) && Joins(arr, a) && Uploadable(name)
    requires Held(slot, arr, m, name, hash)
    requires forall k :: k in m && k != a.file.name ==> k in m' && m'[k] == m[k]
    requires a.file.name in m ==>
      a.file.name in m' &&
      (m'[a.file.name] == m[a.file.name] || HeldBy(slot, a.split, m', a.file.name, m[a.file.name].file.hash))
    ensures Held(slot, arr + [a], m', name, hash)
  {
    var all := arr + [a];
    assert all[|arr|] == a;
    if name in m && m[name].file.hash == hash {
      if name == a.file.name && m'[name] != m[name] {
        assert HeldBy(slot, all[|arr|].split, m', name, hash);
      }
    } else {
      var j :| 0 <= j < |arr| && HeldBy(slot, arr[j].split, m, name, hash);
      assert all[j] == arr[j];
      assert slot(all[j].split, name) != a.file.name;
      assert HeldBy(slot, all[j].split, m', name, hash);
    }
  }

  lemma StillAccounted(slot: Deconflicter, arr: seq<Arrival>, a: Arrival, k: Name, e: MergeEntry)
    requires Accounted(slot, arr, k, e)
    ensures Accounted(slot, arr + [a], k, e)
  {
    var all := arr + [a];
    var i :| 0 <= i < |arr| && From(slot, arr, arr[i], k, e);
    assert all[i] == arr[i];
    if k != arr[i].file.name {
      var s :| 0 <= s < |arr| && k == slot(arr[s].split, arr[i].file.name);
      assert all[s] == arr[s];
    }
    assert From(slot, all, all[i], k, e);
    var j :| 0 <= j < |arr| && Makes(slot, arr[j], k);
    assert Makes(slot, all[j], k);
  }

  /** The entry held at a path moves to the location of the split that brought a newer file. */
  lemma MovedAccounted(slot: Deconflicter, arr: seq<Arrival>, a: Arrival, e: MergeEntry)
    requires Separates(slot) && Joins(arr, a) && Accounted(slot, arr, a.file.name, e)
    ensures var k := slot(a.split, a.file.name);
      Accounted(slot, arr + [a], k, e.(file := e.file.(name := k)))
  {
    var i := HeadOrigin(slot, arr, a, e);
    var all := arr + [a];
    var k := slot(a.split, a.file.name);
    assert all[i] == arr[i] && all[|arr|] == a;
    assert k == slot(all[|arr|].split, all[i].file.name);
    assert From(slot, all, all[i], k, e.(file := e.file.(name := k)));
    assert Makes(slot, all[|arr|], k);
  }

  lemma NewAccounted(slot: Deconflicter, arr: seq<Arrival>, a: Arrival, k: Name)
    requires k == a.file.name || k == slot(a.split, a.file.name)
    ensures Accounted(slot, arr + [a], k, MergeEntry(a.file.(name := k), a.split))
  {
    var all := arr + [a];
    var last := |arr|;
    assert all[last] == a;
    assert k == slot(all[last].split, a.file.name) || k == a.file.name;
    assert From(slot, all, all[last], k, MergeEntry(a.file.(name := k), a.split));
    assert Makes(slot, all[last], k);
  }

  /** The four things a merge turn may do to the index, once the split is known to be a new one for the path. */
  ghost predicate Turn(slot: Deconflicter, a: Arrival, m: Index, m': Index) {
    var name, place := a.file.name, slot(a.split, a.file.name);
    if name !in m then m' == m[name := MergeEntry(a.file, a.split)]
    else
      var held := m[name];
      if a.file.hash == held.file.hash then m' == m
      else if a.file.stamp > held.file.stamp then
        m' == m[place := held.(file := held.file.(name := place))][name := MergeEntry(a.file, a.split)]
      else m' == m[place := MergeEntry(a.file.(name := place), a.split)]
  }

  lemma TurnHolds(slot: Deconflicter, arr: seq<Arrival>, a: Arrival, m: Index, m': Index)
    requires Separates(slot) && Joins(arr, a) && Turn(slot, a, m, m')
    requires slot(a.split, a.file.name) !in m && slot(a.split, a.file.name) != a.file.name
    requires AllHeld(slot, arr, m)
    ensures AllHeld(slot, arr + [a], m')
  {
    var all := arr + [a];
    forall i | 0 <= i < |all|
      ensures all[i].file.name in m' && Held(slot, all, m', all[i].file.name, all[i].file.hash)
    {
      if i < |arr| {
        assert all[i] == arr[i];
        assert Held(slot, arr, m, arr[i].file.name, arr[i].file.hash);
        HeldMoves(slot, arr, a, m, m', all[i].file.name, all[i].file.hash);
      } else {
        assert all[i] == a;
        assert m'[a.file.name].file.hash == a.file.hash
          || HeldBy(slot, all[|arr|].split, m', a.file.name, a.file.hash);
      }
    }
  }

  lemma TurnAccounts(slot: Deconflicter, arr: seq<Arrival>, a: Arrival, m: Index, m': Index, k: Name)
    requires Separates(slot) && Joins(arr, a) && Turn(slot, a, m, m') && k in m'
    requires AllAccounted(slot, arr, m)
    ensures Accounted(slot, arr + [a], k, m'[k])
  {
    if k in m && m'[k] == m[k] {
      assert Accounted(slot, arr, k, m[k]);
      StillAccounted(slot, arr, a, k, m[k]);
    } else if k == a.file.name || m'[k] == MergeEntry(a.file.(name := k), a.split) {
      NewAccounted(slot, arr, a, k);
    } else {
      assert Accounted(slot, arr, a.file.name, m[a.file.name]);
      MovedAccounted(slot, arr, a, m[a.file.name]);
    }
  }

  /** The index grows by one for a new path and by one for each conflict. */
  lemma OneMore(m: Index, m': Index, k: Name)
    requires k !in m && m'.Keys == m.Keys + {k}
    ensures |m'| == |m| + 1
  {
    assert |m'| == |m'.Keys| && |m| == |m.Keys|;
  }

  lemma TurnCounts(slot: Deconflicter, a: Arrival, m: Index, m': Index)
    requires Turn(slot, a, m, m')
    requires slot(a.split, a.file.name) !in m && slot(a.split, a.file.name) != a.file.name
    ensures |m'| == |m| + (if a.file.name in m && a.file.hash == m[a.file.name].file.hash then 0 else 1)
  {
    var name, place := a.file.name, slot(a.split, a.file.name);
    if name !in m {
      assert m'.Keys == m.Keys + {name};
      OneMore(m, m', name);
    } else if a.file.hash != m[name].file.hash {
      assert m'.Keys == m.Keys + {place};
      OneMore(m, m', place);
    }
  }

  /** A path is in the index exactly when it has arrived before. */
  lemma KnownPath(slot: Deconflicter, arr: seq<Arrival>, a: Arrival, m: Index)
    requires Separates(slot) && Joins(arr, a) && AllHeld(slot, arr, m) && AllAccounted(slot, arr, m)
    ensures a.file.name in m <==> a.file.name in Paths(arr)
  {
    if a.file.name in m {
      assert Accounted(slot, arr, a.file.name, m[a.file.name]);
      var i := HeadOrigin(slot, arr, a, m[a.file.name]);
      assert arr[i].file.name in Paths(arr);
    }
  }

  lemma MergeOneTurns(mode: Mode, slot: Deconflicter, m: Index, conflicts: nat, a: Arrival)
    requires Deconflicts(mode) && a.file.stamp > 0
    requires a.file.name in m ==> m[a.file.name].file.name == a.file.name && m[a.file.name].split != a.split
    ensures MergeOne(mode, slot, m, conflicts, a).Merged?
    ensures Turn(slot, a, m, MergeOne(mode, slot, m, conflicts, a).index)
    ensures MergeOne(mode, slot, m, conflicts, a).conflicts ==
      conflicts + (if a.file.name !in m || a.file.hash == m[a.file.name].file.hash then 0 else 1)
  {
  }

  lemma MergeOneKeeps(mode: Mode, slot: Deconflicter, arr: seq<Arrival>, a: Arrival, m: Index, conflicts: nat)
    requires Deconflicts(mode) && Separates(slot) && Joins(arr, a) && NothingLost(slot, arr, m, conflicts)
    ensures MergeOne(mode, slot, m, conflicts, a).Merged?
    ensures var r := MergeOne(mode, slot, m, conflicts, a); NothingLost(slot, arr + [a], r.index, r.conflicts)
  {
    SlotIsFree(slot, arr, a, m);
    if a.file.name in m {
      assert Accounted(slot, arr, a.file.name, m[a.file.name]);
      var _ := HeadOrigin(slot, arr, a, m[a.file.name]);
    }
    MergeOneTurns(mode, slot, m, conflicts, a);
    var m' := MergeOne(mode, slot, m, conflicts, a).index;
    assert AllHeld(slot, arr + [a], m') by { TurnHolds(slot, arr, a, m, m'); }
    assert AllAccounted(slot, arr + [a], m') by {
      forall k | k in m' ensures Accounted(slot, arr + [a], k, m'[k]) {
        TurnAccounts(slot, arr, a, m, m', k);
      }
    }
    assert |Paths(arr + [a])| == |Paths(arr)| + (if a.file.name in m then 0 else 1) by {
      PathsSnoc(arr, a);
      KnownPath(slot, arr, a, m);
    }
    TurnCounts(slot, a, m, m');
  }

  /** With conflicts or checkpoints on, every arrival order keeps every version of every file. */
  lemma {:induction false} MergeLosesNothing(mode: Mode, slot: Deconflicter, arr: seq<Arrival>)
    requires Deconflicts(mode) && Separates(slot) && Inputs(arr)
    ensures MergeAll(mode, slot, arr).Merged?
    ensures NothingLost(slot, arr, MergeAll(mode, slot, arr).index, MergeAll(mode, slot, arr).conflicts)
  {
    if arr != [] {
      var n := |arr| - 1;
      assert arr == arr[..n] + [arr[n]];
      InputsPrefix(arr, n);
      assert Joins(arr[..n], arr[n]);
      MergeLosesNothing(mode, slot, arr[..n]);
      var r := MergeAll(mode, slot, arr[..n]);
      MergeOneKeeps(mode, slot, arr[..n], arr[n], r.index, r.conflicts);
    } else {
      assert Paths(arr) == {};
    }
  }

  lemma InputsPrefix(arr: seq<Arrival>, n: nat)
    requires Inputs(arr) && n <= |arr|
    ensures Inputs(arr[..n])
  {
    assert forall i :: 0 <= i < n ==> arr[..n][i] == arr[i];
  }
}
