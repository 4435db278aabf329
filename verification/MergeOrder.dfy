/** How the outcome of a merge depends on the order in which files arrive. */
module MergeOrder {
  import opened Names
  import opened Merge

  // ---------------------------------------------------------------- forbidding conflicts

  /** All splits that list a path agree on its hash. */
  ghost predicate Agree(arr: seq<Arrival>) {
    forall i, j :: 0 <= i < j < |arr| && arr[i].file.name == arr[j].file.name ==> arr[i].file.hash == arr[j].file.hash
  }

  /** The index is the union of the lists: every path, with the agreed hash, from a split that listed it. */
  ghost predicate Union(arr: seq<Arrival>, m: Index) {
    && (forall i :: 0 <= i < |arr| ==> arr[i].file.name in m && m[arr[i].file.name].file.hash == arr[i].file.hash)
    && (forall k :: k in m ==>
          exists i :: 0 <= i < |arr| && arr[i].file.name == k && m[k] == MergeEntry(arr[i].file, arr[i].split))
  }

  /** A further file agrees with the rest exactly when it has the hash the index holds. */
  lemma AgreeSnoc(arr: seq<Arrival>, m: Index)
    requires arr != [] && Agree(arr[..|arr| - 1]) && Union(arr[..|arr| - 1], m)
    ensures var a := arr[|arr| - 1];
      Agree(arr) <==> (a.file.name in m ==> m[a.file.name].file.hash == a.file.hash)
  {
    var n := |arr| - 1;
    var before, a := arr[..n], arr[n];
    assert forall i :: 0 <= i < n ==> before[i] == arr[i];
    if a.file.name in m {
      var i :| 0 <= i < |before| && before[i].file.name == a.file.name
        && m[a.file.name] == MergeEntry(before[i].file, before[i].split);
      assert arr[i].file.name == arr[n].file.name;
    }
  }

  lemma NotFromSameSplit(arr: seq<Arrival>, m: Index)
    requires arr != [] && UniquePerSplit(arr) && Union(arr[..|arr| - 1], m) && arr[|arr| - 1].file.name in m
    ensures m[arr[|arr| - 1].file.name].split != arr[|arr| - 1].split
  {
    var n := |arr| - 1;
    var i :| 0 <= i < n && arr[..n][i].file.name == arr[n].file.name
      && m[arr[n].file.name] == MergeEntry(arr[..n][i].file, arr[..n][i].split);
    assert arr[..n][i] == arr[i];
  }

  lemma AgreePrefix(arr: seq<Arrival>, n: nat)
    requires Agree(arr) && n <= |arr|
    ensures Agree(arr[..n])
  {
    assert forall i :: 0 <= i < n ==> arr[..n][i] == arr[i];
  }

  /** When conflicts are forbidden, the merge succeeds exactly when the splits agree, whatever the order. */
  lemma {:induction false} ForbidIffAgree(slot: Deconflicter, arr: seq<Arrival>)
    requires UniquePerSplit(arr)
    ensures MergeAll(ForbidConflicts, slot, arr).Merged? <==> Agree(arr)
    ensures Agree(arr) ==> Union(arr, MergeAll(ForbidConflicts, slot, arr).index)
    ensures Agree(arr) ==> MergeAll(ForbidConflicts, slot, arr).conflicts == 0
  {
    if arr != [] {
      var n := |arr| - 1;
      var before := arr[..n];
      assert UniquePerSplit(before);
      ForbidIffAgree(slot, before);
      if Agree(before) {
        ForbidNext(slot, arr);
      } else if Agree(arr) {
        AgreePrefix(arr, n);
      }
    }
  }

  /** One turn when conflicts are forbidden and the file is from another split than the one held. */
  lemma ForbidOne(slot: Deconflicter, m: Index, a: Arrival)
    requires a.file.name in m ==> m[a.file.name].split != a.split
    ensures var r := MergeOne(ForbidConflicts, slot, m, 0, a);
      if a.file.name !in m then r == Merged(m[a.file.name := MergeEntry(a.file, a.split)], 0)
      else if m[a.file.name].file.hash == a.file.hash then r == Merged(m, 0)
      else !r.Merged?
  {
  }

  lemma ForbidNext(slot: Deconflicter, arr: seq<Arrival>)
    requires arr != [] && UniquePerSplit(arr) && Agree(arr[..|arr| - 1])
    requires var r := MergeAll(ForbidConflicts, slot, arr[..|arr| - 1]); r.Merged? && Union(arr[..|arr| - 1], r.index) && r.conflicts == 0
    ensures var r := MergeAll(ForbidConflicts, slot, arr);
      (r.Merged? <==> Agree(arr)) && (Agree(arr) ==> Union(arr, r.index) && r.conflicts == 0)
  {
    var n := |arr| - 1;
    var a, m := arr[n], MergeAll(ForbidConflicts, slot, arr[..n]).index;
    var r := MergeOne(ForbidConflicts, slot, m, 0, a);
    assert MergeAll(ForbidConflicts, slot, arr) == r;
    AgreeSnoc(arr, m);
    if a.file.name in m { NotFromSameSplit(arr, m); }
    ForbidOne(slot, m, a);
    if r.Merged? { UnionGrows(arr[..n], arr, m, r.index); }
  }

  lemma UnionGrows(before: seq<Arrival>, arr: seq<Arrival>, m: Index, m': Index)
    requires |arr| == |before| + 1 && arr[..|before|] == before && Union(before, m)
    requires var a := arr[|before|];
      if a.file.name in m then m' == m && m[a.file.name].file.hash == a.file.hash
      else m' == m[a.file.name := MergeEntry(a.file, a.split)]
    ensures Union(arr, m')
  {
    var n := |before|;
    assert forall i :: 0 <= i < n ==> before[i] == arr[i];
    forall k | k in m'
      ensures exists i :: 0 <= i < |arr| && arr[i].file.name == k && m'[k] == MergeEntry(arr[i].file, arr[i].split)
    {
      if k in m && m'[k] == m[k] {
        var i :| 0 <= i < n && before[i].file.name == k && m[k] == MergeEntry(before[i].file, before[i].split);
        assert arr[i].file.name == k;
      } else {
        assert arr[n].file.name == k;
      }
    }
  }

  // ---------------------------------------------------------------- which version stays at its path

  /** The versions of a path, in arrival order. */
  function Versions(arr: seq<Arrival>, path: Name): (r: seq<Entry>)
    ensures forall v :: v in r ==> v.name == path
  {
    if arr == [] then []
    else
      var n := |arr| - 1;
      Versions(arr[..n], path) + (if arr[n].file.name == path then [arr[n].file] else [])
  }

  /** A different, newer version takes the place of the one held. */
  function Take(held: Entry, v: Entry): (r: Entry) {
    if v.hash != held.hash && v.stamp > held.stamp then v else held
  }

  function Head(vs: seq<Entry>): (r: Entry)
    requires vs != []
    ensures r in vs
  {
    var n := |vs| - 1;
    if n == 0 then vs[0]
    else
      assert vs[..n] <= vs;
      Take(Head(vs[..n]), vs[n])
  }

  ghost predicate HeadsAt(arr: seq<Arrival>, m: Index) {
    forall p {:trigger Versions(arr, p)} :: Uploadable(p) ==>
      (p in m <==> Versions(arr, p) != []) && (p in m ==> m[p].file == Head(Versions(arr, p)))
  }

  lemma VersionsSnoc(arr: seq<Arrival>, path: Name)
    requires arr != []
    ensures var n := |arr| - 1;
      Versions(arr, path) == Versions(arr[..n], path) + (if arr[n].file.name == path then [arr[n].file] else [])
  {
  }

  /** One turn moves the head as `Take` says, whichever of the three tolerant modes is on. */
  lemma HeadsStep(arr: seq<Arrival>, m: Index, m': Index)
    requires arr != [] && HeadsAt(arr[..|arr| - 1], m)
    requires var a := arr[|arr| - 1];
      && Uploadable(a.file.name) && a.file.name in m'
      && m'[a.file.name].file == (if a.file.name in m then Take(m[a.file.name].file, a.file) else a.file)
      && (forall p :: Uploadable(p) && p != a.file.name ==> (p in m' <==> p in m) && (p in m ==> m'[p] == m[p]))
    ensures HeadsAt(arr, m')
  {
    var n := |arr| - 1;
    var a := arr[n];
    forall p | Uploadable(p)
      ensures (p in m' <==> Versions(arr, p) != []) && (p in m' ==> m'[p].file == Head(Versions(arr, p)))
    {
      VersionsSnoc(arr, p);
      var vs := Versions(arr[..n], p);
      if p == a.file.name {
        if vs == [] {
          assert Versions(arr, p) == [a.file];
        } else {
          assert (vs + [a.file])[..|vs|] == vs;
        }
      } else {
        assert Versions(arr, p) == vs;
      }
    }
  }

  /** In ignore mode the file at a path is the head of its versions. */
  lemma {:induction false} IgnoreHolds(slot: Deconflicter, arr: seq<Arrival>)
    requires forall i :: 0 <= i < |arr| ==> Uploadable(arr[i].file.name) && arr[i].file.stamp > 0
    ensures MergeAll(IgnoreConflicts, slot, arr).Merged?
    ensures HeadsAt(arr, MergeAll(IgnoreConflicts, slot, arr).index)
    ensures forall k :: k in MergeAll(IgnoreConflicts, slot, arr).index ==> Uploadable(k)
    ensures MergeAll(IgnoreConflicts, slot, arr).conflicts == 0
  {
    if arr != [] {
      var n := |arr| - 1;
      assert forall i :: 0 <= i < n ==> arr[..n][i] == arr[i];
      IgnoreHolds(slot, arr[..n]);
      var m := MergeAll(IgnoreConflicts, slot, arr[..n]).index;
      HeadsStep(arr, m, MergeAll(IgnoreConflicts, slot, arr).index);
    }
  }

  /** With conflicts or checkpoints on, the path itself holds the same head. */
  lemma {:induction false} DeconflictHolds(mode: Mode, slot: Deconflicter, arr: seq<Arrival>)
    requires Deconflicts(mode) && Separates(slot) && Inputs(arr)
    ensures MergeAll(mode, slot, arr).Merged?
    ensures HeadsAt(arr, MergeAll(mode, slot, arr).index)
  {
    MergeLosesNothing(mode, slot, arr);
    if arr != [] {
      var n := |arr| - 1;
      var before, a := arr[..n], arr[n];
      InputsPrefix(arr, n);
      assert Joins(before, a);
      DeconflictHolds(mode, slot, before);
      MergeLosesNothing(mode, slot, before);
      var r := MergeAll(mode, slot, before);
      assert AllAccounted(slot, before, r.index);
      if a.file.name in r.index {
        assert Accounted(slot, before, a.file.name, r.index[a.file.name]);
        var _ := HeadOrigin(slot, before, a, r.index[a.file.name]);
      }
      MergeOneTurns(mode, slot, r.index, r.conflicts, a);
      TurnMovesHead(slot, a, r.index, MergeAll(mode, slot, arr).index);
      HeadsStep(arr, r.index, MergeAll(mode, slot, arr).index);
    }
  }

  lemma TurnMovesHead(slot: Deconflicter, a: Arrival, m: Index, m': Index)
    requires Separates(slot) && Turn(slot, a, m, m') && Proper(a.split) && Uploadable(a.file.name)
    ensures a.file.name in m'
    ensures m'[a.file.name].file == (if a.file.name in m then Take(m[a.file.name].file, a.file) else a.file)
    ensures forall p :: Uploadable(p) && p != a.file.name ==> (p in m' <==> p in m) && (p in m ==> m'[p] == m[p])
  {
    forall p | Uploadable(p)
      ensures slot(a.split, a.file.name) != p
    {
    }
  }

  // ---------------------------------------------------------------- order independence of the head

  predicate SameBag(a: seq<Entry>, b: seq<Entry>) { multiset(a) == multiset(b) }

  /** One version beats every version with another hash, and none of its own twins is older than those. */
  ghost predicate Wins(vs: seq<Entry>, w: Entry) {
    && w in vs
    && (forall v :: v in vs && v.hash != w.hash ==> v.stamp < w.stamp)
    && (forall u, v :: u in vs && v in vs && u.hash == w.hash && v.hash != w.hash ==> v.stamp <= u.stamp)
  }

  ghost predicate HeadIsStable(vs: seq<Entry>)
    requires vs != []
  {
    forall ws: seq<Entry> :: SameBag(ws, vs) && ws != [] ==> Head(ws).hash == Head(vs).hash
  }

  lemma BagMembers(a: seq<Entry>, b: seq<Entry>)
    requires SameBag(a, b)
    ensures forall v :: v in a <==> v in b
    ensures |a| == |b|
  {
    assert forall v :: v in a <==> v in multiset(a);
    assert forall v :: v in b <==> v in multiset(b);
    assert |multiset(a)| == |a| && |multiset(b)| == |b|;
  }

  lemma WinnerTaken(vs: seq<Entry>, w: Entry, held: Entry, v: Entry)
    requires Wins(vs, w) && held in vs && v in vs && (held.hash == w.hash || v == w)
    ensures Take(held, v).hash == w.hash
  {
  }

  lemma {:induction false} WinnerStays(vs: seq<Entry>, w: Entry, k: nat)
    requires Wins(vs, w) && 0 < k <= |vs| && w in vs[..k]
    ensures Head(vs[..k]).hash == w.hash
  {
    var n := k - 1;
    if n > 0 {
      var upTo, held := vs[..k], Head(vs[..n]);
      assert upTo[..n] == vs[..n] && upTo[n] == vs[n];
      assert held in vs && vs[n] in vs;
      if w in vs[..n] { WinnerStays(vs, w, n); }
      WinnerTaken(vs, w, held, vs[n]);
      assert Head(upTo) == Take(held, vs[n]);
    }
  }

  /** Brings an element to the front. */
  function Front(vs: seq<Entry>, i: nat): (r: seq<Entry>)
    requires i < |vs|
    ensures SameBag(r, vs)
    ensures |r| == |vs| && r[0] == vs[i]
  {
    assert vs == vs[..i] + [vs[i]] + vs[i + 1..];
    [vs[i]] + vs[..i] + vs[i + 1..]
  }

  lemma {:induction false} FirstNewestStays(vs: seq<Entry>)
    requires vs != [] && forall v :: v in vs ==> v.stamp <= vs[0].stamp
    ensures Head(vs) == vs[0]
  {
    var n := |vs| - 1;
    if n > 0 {
      assert forall v :: v in vs[..n] ==> v in vs;
      FirstNewestStays(vs[..n]);
      assert vs[n] in vs;
    }
  }

  function Keep(vs: seq<Entry>, hash: string, equal: bool): (r: seq<Entry>)
    ensures forall v :: v in r <==> v in vs && (v.hash == hash) == equal
  {
    if vs == [] then []
    else
      var n := |vs| - 1;
      assert vs == vs[..n] + [vs[n]];
      Keep(vs[..n], hash, equal) + (if (vs[n].hash == hash) == equal then [vs[n]] else [])
  }

  lemma {:induction false} KeepParts(vs: seq<Entry>, hash: string)
    ensures SameBag(Keep(vs, hash, true) + Keep(vs, hash, false), vs)
  {
    if vs != [] {
      var n := |vs| - 1;
      KeepParts(vs[..n], hash);
      assert vs == vs[..n] + [vs[n]];
      assert multiset(vs) == multiset(vs[..n]) + multiset{vs[n]};
    }
  }

  /** Twins change nothing, then a newer stranger takes over and no twin is left to come back. */
  lemma {:induction false} StrangerTakesOver(twins: seq<Entry>, strangers: seq<Entry>, k: nat)
    requires twins != [] && strangers != [] && k <= |strangers|
    requires forall v :: v in twins ==> v.hash == twins[0].hash
    requires forall v :: v in strangers ==> v.hash != twins[0].hash
    requires strangers[0].stamp > twins[0].stamp
    ensures k == 0 ==> Head(twins) == twins[0]
    ensures k > 0 ==> Head(twins + strangers[..k]).hash != twins[0].hash
    decreases k, |twins|
  {
    if k == 0 {
      var n := |twins| - 1;
      if n > 0 {
        assert forall v :: v in twins[..n] ==> v in twins;
        StrangerTakesOver(twins[..n], strangers, 0);
        assert twins[n] in twins;
      }
    } else {
      var all := twins + strangers[..k];
      assert all[..|all| - 1] == twins + strangers[..k - 1];
      assert all[|all| - 1] == strangers[k - 1];
      assert strangers[k - 1] in strangers;
      StrangerTakesOver(twins, strangers, k - 1);
      if k == 1 {
        assert twins + strangers[..0] == twins;
      }
    }
  }

  lemma {:induction false} NewestOf(vs: seq<Entry>) returns (i: nat)
    requires vs != []
    ensures i < |vs| && forall v :: v in vs ==> v.stamp <= vs[i].stamp
  {
    var n := |vs| - 1;
    if n == 0 {
      i := 0;
    } else {
      i := NewestOf(vs[..n]);
      assert vs[..n][i] == vs[i];
      if vs[n].stamp > vs[i].stamp { i := n; }
      forall v | v in vs ensures v.stamp <= vs[i].stamp {
        if v !in vs[..n] { assert v == vs[n]; }
      }
    }
  }

  /** The hash left at a path is the same for every arrival order exactly when one version wins. */
  lemma StableIffWinner(vs: seq<Entry>)
    requires vs != []
    ensures HeadIsStable(vs) <==> exists w :: Wins(vs, w)
  {
    if w :| Wins(vs, w) {
      WinnerStays(vs, w, |vs|);
      assert vs[..|vs|] == vs;
      forall ws: seq<Entry> | SameBag(ws, vs) && ws != []
        ensures Head(ws).hash == Head(vs).hash
      {
        BagMembers(ws, vs);
        assert Wins(ws, w);
        assert ws[..|ws|] == ws;
        WinnerStays(ws, w, |ws|);
      }
    }
    if HeadIsStable(vs) {
      var i := NewestOf(vs);
      StableMakesWinner(vs, i);
    }
  }

  lemma StableMakesWinner(vs: seq<Entry>, i: nat)
    requires vs != [] && HeadIsStable(vs)
    requires i < |vs| && forall v :: v in vs ==> v.stamp <= vs[i].stamp
    ensures Wins(vs, vs[i])
  {
    var w := vs[i];
    NewestFirst(vs, i);
    forall v | v in vs && v.hash != w.hash
      ensures v.stamp < w.stamp
    {
      if v.stamp == w.stamp {
        var j :| 0 <= j < |vs| && vs[j] == v;
        NewestFirst(vs, j);
      }
    }
    forall u, v | u in vs && v in vs && u.hash == w.hash && v.hash != w.hash
      ensures v.stamp <= u.stamp
    {
      if v.stamp > u.stamp {
        var ws := TwinsFirst(vs, w.hash, u, v);
        assert false;
      }
    }
  }

  lemma NewestFirst(vs: seq<Entry>, i: nat)
    requires vs != [] && HeadIsStable(vs)
    requires i < |vs| && forall v :: v in vs ==> v.stamp <= vs[i].stamp
    ensures Head(vs).hash == vs[i].hash
  {
    var ws := Front(vs, i);
    BagMembers(ws, vs);
    FirstNewestStays(ws);
  }

  lemma BagsConcat(a: seq<Entry>, a': seq<Entry>, b: seq<Entry>, b': seq<Entry>)
    requires SameBag(a, a') && SameBag(b, b')
    ensures SameBag(a + b, a' + b')
  {
    assert multiset(a + b) == multiset(a) + multiset(b);
    assert multiset(a' + b') == multiset(a') + multiset(b');
  }

  /** An order in which an older twin of `hash` gives way to a newer stranger for good. */
  lemma TwinsFirst(vs: seq<Entry>, hash: string, u: Entry, v: Entry) returns (ws: seq<Entry>)
    requires u in vs && v in vs && u.hash == hash && v.hash != hash && v.stamp > u.stamp
    ensures SameBag(ws, vs) && ws != [] && Head(ws).hash != hash
  {
    var twins, strangers := Keep(vs, hash, true), Keep(vs, hash, false);
    var i :| 0 <= i < |twins| && twins[i] == u;
    var j :| 0 <= j < |strangers| && strangers[j] == v;
    var a, b := Front(twins, i), Front(strangers, j);
    ws := a + b;
    assert SameBag(ws, vs) by {
      KeepParts(vs, hash);
      BagsConcat(a, twins, b, strangers);
    }
    BagMembers(a, twins);
    BagMembers(b, strangers);
    StrangerTakesOver(a, b, |b|);
    assert b[..|b|] == b;
  }

  /** Versions that all differ, in hash and in time. */
  ghost predicate AllDiffer(vs: seq<Entry>) {
    forall i, j :: 0 <= i < j < |vs| ==> vs[i].hash != vs[j].hash && vs[i].stamp != vs[j].stamp
  }

  /** Then the newest is what stays, in every order. */
  lemma NewestStays(vs: seq<Entry>, ws: seq<Entry>)
    requires vs != [] && AllDiffer(vs) && SameBag(ws, vs)
    ensures ws != [] && Head(ws) == Head(vs)
    ensures forall v :: v in vs ==> v.stamp <= Head(ws).stamp
  {
    BagMembers(ws, vs);
    var i := NewestOf(vs);
    var w := vs[i];
    assert Wins(vs, w);
    assert Wins(ws, w);
    assert vs[..|vs|] == vs && ws[..|ws|] == ws;
    WinnerStays(vs, w, |vs|);
    WinnerStays(ws, w, |ws|);
    var h, h' := Head(vs), Head(ws);
    assert h == w && h' == w;
  }

  /** Without that, the newest may be lost: it is dropped as a twin before a stranger takes over. */
  lemma NewestMayBeLost()
    ensures var a, b, c := Entry("h", ["f"], 1, 1), Entry("g", ["f"], 1, 2), Entry("h", ["f"], 1, 3);
      Head([a, c, b]) == b && Head([a, b, c]) == c
  {
    var a, b, c := Entry("h", ["f"], 1, 1), Entry("g", ["f"], 1, 2), Entry("h", ["f"], 1, 3);
    assert [a, c, b][..2] == [a, c] && [a, c][..1] == [a];
    assert [a, b, c][..2] == [a, b] && [a, b][..1] == [a];
  }

  /** Even then, time never runs backwards at a path. */
  lemma {:induction false} HeadTimeGrows(vs: seq<Entry>, k: nat)
    requires 0 < k <= |vs|
    ensures Head(vs[..k]).stamp <= Head(vs).stamp
    decreases |vs|
  {
    if k == |vs| {
      assert vs[..k] == vs;
    } else {
      var n := |vs| - 1;
      assert vs[..n][..k] == vs[..k];
      HeadTimeGrows(vs[..n], k);
    }
  }

  lemma {:induction false} VersionsBag(arr: seq<Arrival>, path: Name, v: Entry)
    requires v.name == path
    ensures multiset(Versions(arr, path))[v] == CountFile(arr, v)
  {
    if arr != [] { VersionsBag(arr[..|arr| - 1], path, v); }
  }

  function CountFile(arr: seq<Arrival>, v: Entry): (r: nat) {
    if arr == [] then 0
    else CountFile(arr[..|arr| - 1], v) + (if arr[|arr| - 1].file == v then 1 else 0)
  }

  /** Reordering arrivals reorders the versions of each path. */
  lemma VersionsReorder(arr: seq<Arrival>, arr': seq<Arrival>, path: Name)
    requires multiset(arr) == multiset(arr')
    ensures SameBag(Versions(arr, path), Versions(arr', path))
  {
    var a, b := Versions(arr, path), Versions(arr', path);
    forall v: Entry
      ensures multiset(a)[v] == multiset(b)[v]
    {
      if v.name == path {
        VersionsBag(arr, path, v);
        VersionsBag(arr', path, v);
        CountReorder(arr, arr', v);
      } else {
        assert v !in a && v !in b;
      }
    }
  }

  lemma {:induction false} CountReorder(arr: seq<Arrival>, arr': seq<Arrival>, v: Entry)
    requires multiset(arr) == multiset(arr')
    ensures CountFile(arr, v) == CountFile(arr', v)
    decreases |arr|
  {
    assert |multiset(arr)| == |arr| && |multiset(arr')| == |arr'|;
    if arr != [] {
      var n := |arr| - 1;
      var i := Without(arr, arr');
      CountReorder(arr[..n], arr'[..i] + arr'[i + 1..], v);
      CountMiddle(arr'[..i], arr'[i], arr'[i + 1..], v);
      assert arr' == arr'[..i] + [arr'[i]] + arr'[i + 1..];
    }
  }

  /** Taking the last of one sequence out of a reordering of it leaves a reordering of the rest. */
  lemma Without(arr: seq<Arrival>, arr': seq<Arrival>) returns (i: nat)
    requires multiset(arr) == multiset(arr') && arr != []
    ensures i < |arr'| && arr'[i] == arr[|arr| - 1]
    ensures multiset(arr[..|arr| - 1]) == multiset(arr'[..i] + arr'[i + 1..])
  {
    var n := |arr| - 1;
    assert arr == arr[..n] + [arr[n]];
    assert multiset(arr) == multiset(arr[..n]) + multiset{arr[n]};
    assert arr[n] in multiset(arr');
    i :| 0 <= i < |arr'| && arr'[i] == arr[n];
    var rest := arr'[..i] + arr'[i + 1..];
    assert arr' == arr'[..i] + [arr'[i]] + arr'[i + 1..];
    assert multiset(arr') == multiset(rest) + multiset{arr'[i]};
    assert multiset(arr[..n]) == multiset(arr) - multiset{arr[n]};
    assert multiset(rest) == multiset(arr') - multiset{arr'[i]};
  }

  lemma {:induction false} CountMiddle(a: seq<Arrival>, x: Arrival, b: seq<Arrival>, v: Entry)
    ensures CountFile(a + [x] + b, v) == CountFile(a + b, v) + (if x.file == v then 1 else 0)
    decreases |b|
  {
    if b == [] {
      assert a + b == a && (a + [x] + b)[..|a|] == a;
    } else {
      var n := |b| - 1;
      CountMiddle(a, x, b[..n], v);
      assert (a + [x] + b)[..|a| + 1 + n] == a + [x] + b[..n];
      assert (a + b)[..|a| + n] == a + b[..n];
    }
  }

  /** Ignore mode is a function of the set of files once versions of a path all differ. */
  lemma IgnoreIsOrderFree(slot: Deconflicter, arr: seq<Arrival>, arr': seq<Arrival>)
    requires forall i :: 0 <= i < |arr| ==> Uploadable(arr[i].file.name) && arr[i].file.stamp > 0
    requires multiset(arr) == multiset(arr')
    requires forall p {:trigger Versions(arr, p)} :: AllDiffer(Versions(arr, p))
    ensures MergeAll(IgnoreConflicts, slot, arr).Merged? && MergeAll(IgnoreConflicts, slot, arr').Merged?
    ensures var m, m' := MergeAll(IgnoreConflicts, slot, arr).index, MergeAll(IgnoreConflicts, slot, arr').index;
      m.Keys == m'.Keys && forall p :: p in m ==> m[p].file == m'[p].file
  {
    forall i | 0 <= i < |arr'|
      ensures Uploadable(arr'[i].file.name) && arr'[i].file.stamp > 0
    {
      assert arr'[i] in multiset(arr');
      assert arr'[i] in arr;
    }
    IgnoreHolds(slot, arr);
    IgnoreHolds(slot, arr');
    var m, m' := MergeAll(IgnoreConflicts, slot, arr).index, MergeAll(IgnoreConflicts, slot, arr').index;
    forall p | Uploadable(p)
      ensures p in m <==> p in m'
      ensures p in m ==> m[p].file == m'[p].file
    {
      var vs, ws := Versions(arr, p), Versions(arr', p);
      VersionsReorder(arr, arr', p);
      BagMembers(vs, ws);
      if vs != [] { NewestStays(vs, ws); }
    }
  }
}
