/** The mark phase of the purge: scanners put the keys of all bundles into a key-value index, while chunks of
    the index are being uploaded.

    Contexts are scanned one after another. The repos of a context are started in order, and at most so many
    are scanned at a time; each has one scanner, which takes its bundles in order. A scanner that finds the
    root key of a file in the index does not fetch its leaves: it relies on whoever put the root there. */
module PurgeMark {
  import opened Chunking

  type Key = string

  /** A repo: the position of its context, and its bundles in order, as the root keys of their files. */
  datatype Repo = Repo(context: nat, bundles: seq<seq<Key>>)

  /** What is scanned, how many repos at a time, and the leaf keys of each root. The leaves of a root that
      cannot be read are none. */
  datatype Plan = Plan(repos: seq<Repo>, parallel: nat, leaves: map<Key, seq<Key>>) {
    function LeavesOf(root: Key): (ls: seq<Key>) { if root in leaves then leaves[root] else [] }

    predicate Has(j: nat, b: nat, k: Key) { j < |repos| && b < |repos[j].bundles| && k in repos[j].bundles[b] }

    ghost predicate InRepo(j: nat, k: Key) { exists b :: Has(j, b, k) }

    ghost predicate IsRoot(k: Key) { exists j :: InRepo(j, k) }

    ghost predicate IsLeaf(k: Key) { exists r :: IsRoot(r) && k in LeavesOf(r) }

    /** The repos of the same context that were started before and have the root. */
    ghost function Rivals(j: nat, k: Key): (js: set<nat>)
      requires j < |repos|
    {
      set i: nat | i < j && repos[i].context == repos[j].context && InRepo(i, k)
    }

    /** Whatever the schedule, the root has been visited before bundle `b` of repo `j` is stored: it is in this
        or an earlier bundle of the repo, or in an earlier context, or in so many repos started before this
        one that they cannot all be under way. */
    ghost predicate Covered(j: nat, b: nat, k: Key)
      requires j < |repos|
    {
      || (exists c: nat :: c <= b && Has(j, c, k))
      || (exists i: nat :: InRepo(i, k) && repos[i].context < repos[j].context)
      || |Rivals(j, k)| >= parallel
    }

    /** A root that is also a leaf of another file has no leaves, or is always visited before that file's keys are stored. */
    ghost predicate Harmless() {
      forall j, b, r, k :: Has(j, b, r) && k in LeavesOf(r) && IsRoot(k) ==> LeavesOf(k) == [] || Covered(j, b, k)
    }
  }

  type Config = c: Plan |
    c.parallel > 0 && forall i, j :: 0 <= i < j < |c.repos| ==> c.repos[i].context <= c.repos[j].context
    witness Plan([], 1, map[])

  /** The scan of one repo, at a bundle: first it gathers keys, then it stores them. */
  datatype Scan = Scan(bundle: nat, at: nat, keys: seq<Key>, stored: nat)

  /** `kv` maps an indexed key to whether it was uploaded; `chunks` are the index chunks so far. */
  datatype State = State(scans: seq<Scan>, kv: map<Key, bool>, chunks: seq<seq<Key>>)

  const Init: State := State([], map[], [])

  datatype Step = Begin | Visit(j: nat) | Store(j: nat) | NextBundle(j: nat) | NewChunk | Upload(key: Key)

  predicate Active(cfg: Config, s: State, j: nat) {
    j < |s.scans| && j < |cfg.repos| && s.scans[j].bundle < |cfg.repos[j].bundles|
  }

  /** The bundle that a scanner is at. */
  function Current(cfg: Config, s: State, j: nat): (roots: seq<Key>)
    requires Active(cfg, s, j)
  {
    cfg.repos[j].bundles[s.scans[j].bundle]
  }

  predicate Enabled(cfg: Config, s: State, step: Step) {
    match step
    case Begin =>
      && |s.scans| < |cfg.repos|
      && (forall i: nat :: i < |s.scans| && Active(cfg, s, i) ==> cfg.repos[i].context == cfg.repos[|s.scans|].context)
      && |set i: nat | i < |s.scans| && Active(cfg, s, i)| < cfg.parallel
    case Visit(j) => Active(cfg, s, j) && s.scans[j].at < |Current(cfg, s, j)| && s.scans[j].stored == 0
    case Store(j) => Active(cfg, s, j) && s.scans[j].at == |Current(cfg, s, j)| && s.scans[j].stored < |s.scans[j].keys|
    case NextBundle(j) => Active(cfg, s, j) && s.scans[j].at == |Current(cfg, s, j)| && s.scans[j].stored == |s.scans[j].keys|
    case NewChunk => true
    case Upload(k) => s.chunks != [] && k in s.kv && !s.kv[k]
  }

  function VisitRoot(cfg: Config, s: State, sc: Scan, root: Key): (sc': Scan) {
    sc.(at := sc.at + 1, keys := if root in s.kv then sc.keys else sc.keys + [root] + cfg.LeavesOf(root))
  }

  function Next(cfg: Config, s: State, step: Step): (s': State)
    requires Enabled(cfg, s, step)
  {
    match step
    case Begin => s.(scans := s.scans + [Scan(0, 0, [], 0)])
    case Visit(j) => s.(scans := s.scans[j := VisitRoot(cfg, s, s.scans[j], Current(cfg, s, j)[s.scans[j].at])])
    case Store(j) =>
      var sc := s.scans[j];
      var k := sc.keys[sc.stored];
      s.(scans := s.scans[j := sc.(stored := sc.stored + 1)], kv := if k in s.kv then s.kv else s.kv[k := false])
    case NextBundle(j) => s.(scans := s.scans[j := Scan(s.scans[j].bundle + 1, 0, [], 0)])
    case NewChunk => s.(chunks := s.chunks + [[]])
    case Upload(k) =>
      var last := |s.chunks| - 1;
      s.(kv := s.kv[k := true], chunks := s.chunks[last := s.chunks[last] + [k]])
  }

  // ---------------------------------------------------------------- invariant

  /** The key is still to be stored by a scanner that has it. */
  ghost predicate PendingAt(s: State, j: nat, p: nat, k: Key) {
    j < |s.scans| && s.scans[j].stored <= p < |s.scans[j].keys| && s.scans[j].keys[p] == k
  }

  ghost predicate Pending(s: State, k: Key) { exists j, p :: PendingAt(s, j, p, k) }

  /** The root was gathered at this position: its leaves follow it. */
  ghost predicate GatheredAt(cfg: Config, keys: seq<Key>, p: nat, r: Key) {
    p < |keys| && keys[p] == r && forall l :: l in cfg.LeavesOf(r) ==> Follows(keys, p, l)
  }

  ghost predicate Follows(keys: seq<Key>, p: nat, l: Key) { exists j :: p < j < |keys| && keys[j] == l }

  /** The root comes later in the scanner's bundle. */
  ghost predicate Ahead(cfg: Config, s: State, j: nat, r: Key) {
    Active(cfg, s, j) && s.scans[j].at <= |Current(cfg, s, j)| && r in Current(cfg, s, j)[s.scans[j].at..]
  }

  /** A root among gathered keys that has leaves is indexed, or was gathered with them, or is still to be visited. */
  ghost predicate RootOk(cfg: Config, s: State, j: nat, r: Key)
    requires j < |s.scans|
  {
    || cfg.LeavesOf(r) == [] || r in s.kv
    || (exists p: nat :: GatheredAt(cfg, s.scans[j].keys, p, r))
    || Ahead(cfg, s, j, r)
  }

  /** The progress of a scanner within its bundle. */
  ghost predicate PlaceOk(cfg: Config, s: State, j: nat) {
    && j < |s.scans| && j < |cfg.repos| && s.scans[j].bundle <= |cfg.repos[j].bundles|
    && s.scans[j].stored <= |s.scans[j].keys|
    && (!Active(cfg, s, j) ==> s.scans[j].keys == [])
    && (Active(cfg, s, j) ==>
          && s.scans[j].at <= |Current(cfg, s, j)|
          && (s.scans[j].stored > 0 ==> s.scans[j].at == |Current(cfg, s, j)|)
          // every root visited so far is indexed or gathered
          && forall i :: 0 <= i < s.scans[j].at ==> Current(cfg, s, j)[i] in s.kv || Current(cfg, s, j)[i] in s.scans[j].keys)
    // what it has stored is indexed
    && (forall i :: 0 <= i < s.scans[j].stored ==> s.scans[j].keys[i] in s.kv)
  }

  ghost predicate ScanOk(cfg: Config, s: State, j: nat) {
    && PlaceOk(cfg, s, j)
    // and so are the roots of the bundles that are behind it
    && (forall b: nat, k :: cfg.Has(j, b, k) && b < s.scans[j].bundle ==> k in s.kv)
  }

  ghost predicate KeysOk(cfg: Config, s: State, j: nat)
    requires j < |s.scans|
  {
    && (forall k :: k in s.scans[j].keys ==> cfg.IsRoot(k) || cfg.IsLeaf(k))
    && (forall k {:trigger RootOk(cfg, s, j, k)} :: k in s.scans[j].keys && cfg.IsRoot(k) ==> RootOk(cfg, s, j, k))
  }

  /** The scanners before this one that are not through. */
  ghost function Late(cfg: Config, s: State, j: nat): (js: set<nat>) { set i: nat | i < j && Active(cfg, s, i) }

  /** What was through when the scanner began still is. */
  ghost predicate OrderOk(cfg: Config, s: State, j: nat) {
    && j < |cfg.repos| && |Late(cfg, s, j)| < cfg.parallel
    && forall i: nat :: i < j && Active(cfg, s, i) ==> cfg.repos[i].context == cfg.repos[j].context
  }

  /** A leaf of an indexed root is indexed, or some live scanner is about to index it. */
  ghost predicate LeafSafe(s: State, l: Key) { l in s.kv || Pending(s, l) }

  ghost predicate Inv(cfg: Config, s: State) {
    && (forall j: nat {:trigger ScanOk(cfg, s, j)} :: j < |s.scans| ==> ScanOk(cfg, s, j) && KeysOk(cfg, s, j))
    && (forall r, l {:trigger cfg.IsRoot(r), LeafSafe(s, l)} :: r in s.kv && cfg.IsRoot(r) && l in cfg.LeavesOf(r) ==> LeafSafe(s, l))
    && (forall k :: k in s.kv ==> cfg.IsRoot(k) || cfg.IsLeaf(k))
  }

  ghost predicate InOrder(cfg: Config, s: State) {
    |s.scans| <= |cfg.repos| && forall j: nat {:trigger OrderOk(cfg, s, j)} :: j < |s.scans| ==> OrderOk(cfg, s, j)
  }

  /** Every uploaded key is in exactly one place of the chunks, and nothing else is. */
  ghost predicate Chunked(kv: map<Key, bool>, chunks: seq<seq<Key>>) {
    var all := Flatten(chunks);
    && (forall i, j :: 0 <= i < j < |all| ==> all[i] != all[j])
    && (forall k :: k in all <==> k in kv && kv[k])
  }

  lemma AppendToLast(chunks: seq<seq<Key>>, k: Key)
    requires chunks != []
    ensures Flatten(chunks[|chunks| - 1 := chunks[|chunks| - 1] + [k]]) == Flatten(chunks) + [k]
  {
    var n := |chunks| - 1;
    var front := chunks[..n];
    assert chunks == front + [chunks[n]];
    assert chunks[n := chunks[n] + [k]] == front + [chunks[n] + [k]];
    FlattenSnoc(front, chunks[n]);
    FlattenSnoc(front, chunks[n] + [k]);
  }

  lemma UploadKeepsChunked(kv: map<Key, bool>, chunks: seq<seq<Key>>, k: Key)
    requires Chunked(kv, chunks) && chunks != [] && k in kv && !kv[k]
    ensures Chunked(kv[k := true], chunks[|chunks| - 1 := chunks[|chunks| - 1] + [k]])
  {
    AppendToLast(chunks, k);
    var all := Flatten(chunks);
    assert k !in all;
    forall x ensures x in all + [k] <==> x in kv[k := true] && kv[k := true][x] {
      assert x in all <==> x in kv && kv[x];
    }
  }

  lemma NewChunkKeepsChunked(kv: map<Key, bool>, chunks: seq<seq<Key>>)
    requires Chunked(kv, chunks)
    ensures Chunked(kv, chunks + [[]])
  {
    FlattenSnoc(chunks, []);
    assert Flatten(chunks) + [] == Flatten(chunks);
  }

  // ---------------------------------------------------------------- every step keeps it

  lemma StepKeepsOrder(cfg: Config, s: State, step: Step)
    requires InOrder(cfg, s) && Enabled(cfg, s, step)
    ensures InOrder(cfg, Next(cfg, s, step))
  {
    var s' := Next(cfg, s, step);
    forall j: nat | j < |s'.scans| ensures OrderOk(cfg, s', j) {
      if j < |s.scans| {
        assert OrderOk(cfg, s, j);
        assert forall i: nat :: i < j && Active(cfg, s', i) ==> Active(cfg, s, i);
        SubsetSize(Late(cfg, s', j), Late(cfg, s, j));
      } else {
        assert forall i: nat :: i < j && Active(cfg, s', i) ==> Active(cfg, s, i);
        SubsetSize(Late(cfg, s', j), set i: nat | i < |s.scans| && Active(cfg, s, i));
      }
    }
  }

  /** Keys that were safe stay so, when no key leaves the index and no pending key is dropped unindexed. */
  ghost predicate Kept(s: State, s': State) {
    && (forall k :: k in s.kv ==> k in s'.kv)
    && (forall j, p, k :: PendingAt(s, j, p, k) ==> PendingAt(s', j, p, k) || k in s'.kv)
  }

  lemma KeptSafe(cfg: Config, s: State, s': State, l: Key)
    requires Kept(s, s') && LeafSafe(s, l)
    ensures LeafSafe(s', l)
  {
    if l !in s.kv {
      var j, p :| PendingAt(s, j, p, l);
      assert PendingAt(s', j, p, l) || l in s'.kv;
    }
  }

  /** The invariant, from what a step does to the scans and the index. */
  lemma FromKept(cfg: Config, s: State, s': State)
    requires Inv(cfg, s) && Kept(s, s')
    requires forall j: nat :: j < |s'.scans| ==> ScanOk(cfg, s', j) && KeysOk(cfg, s', j)
    requires forall r, l :: r in s'.kv && r !in s.kv && cfg.IsRoot(r) && l in cfg.LeavesOf(r) ==> LeafSafe(s', l)
    requires forall k :: k in s'.kv && k !in s.kv ==> cfg.IsRoot(k) || cfg.IsLeaf(k)
    ensures Inv(cfg, s')
  {
    forall r, l | r in s'.kv && cfg.IsRoot(r) && l in cfg.LeavesOf(r) ensures LeafSafe(s', l) {
      if r in s.kv {
        assert LeafSafe(s, l);
        KeptSafe(cfg, s, s', l);
      }
    }
  }

  /** A scan that a step does not touch stays in order while the index grows. */
  lemma ScanStays(cfg: Config, s: State, s': State, j: nat)
    requires ScanOk(cfg, s, j) && KeysOk(cfg, s, j) && j < |s'.scans| && s'.scans[j] == s.scans[j]
    requires forall k :: k in s.kv ==> k in s'.kv
    ensures ScanOk(cfg, s', j) && KeysOk(cfg, s', j)
  {
    forall k | k in s'.scans[j].keys && cfg.IsRoot(k) ensures RootOk(cfg, s', j, k) { assert RootOk(cfg, s, j, k); }
  }

  /** So it is enough to look at the scanner that takes the step. */
  lemma OthersStay(cfg: Config, s: State, s': State, me: nat)
    requires Inv(cfg, s) && |s'.scans| == |s.scans| && forall k :: k in s.kv ==> k in s'.kv
    requires forall j: nat :: j < |s.scans| && j != me ==> s'.scans[j] == s.scans[j]
    requires me < |s.scans| ==> ScanOk(cfg, s', me) && KeysOk(cfg, s', me)
    ensures forall j: nat :: j < |s'.scans| ==> ScanOk(cfg, s', j) && KeysOk(cfg, s', j)
  {
    forall j: nat | j < |s'.scans| ensures ScanOk(cfg, s', j) && KeysOk(cfg, s', j) {
      if j != me {
        assert ScanOk(cfg, s, j);
        ScanStays(cfg, s, s', j);
      }
    }
  }

  lemma UploadKeeps(cfg: Config, s: State, step: Step)
    requires Inv(cfg, s) && Enabled(cfg, s, step) && (step.NewChunk? || step.Upload?)
    ensures Inv(cfg, Next(cfg, s, step))
  {
    var s' := Next(cfg, s, step);
    forall j, p, k | PendingAt(s, j, p, k) ensures PendingAt(s', j, p, k) { }
    OthersStay(cfg, s, s', |s.scans|);
    FromKept(cfg, s, s');
  }

  lemma BeginKeeps(cfg: Config, s: State)
    requires Inv(cfg, s) && Enabled(cfg, s, Begin)
    ensures Inv(cfg, Next(cfg, s, Begin))
  {
    var s' := Next(cfg, s, Begin);
    forall j, p, k | PendingAt(s, j, p, k) ensures PendingAt(s', j, p, k) { }
    forall j: nat | j < |s'.scans| ensures ScanOk(cfg, s', j) && KeysOk(cfg, s', j) {
      if j < |s.scans| {
        assert ScanOk(cfg, s, j);
        ScanStays(cfg, s, s', j);
      }
    }
    FromKept(cfg, s, s');
  }

  /** A bundle is behind the scanner when all that it gathered there is stored. */
  lemma NextBundleKeeps(cfg: Config, s: State, step: Step)
    requires Inv(cfg, s) && Enabled(cfg, s, step) && step.NextBundle?
    ensures Inv(cfg, Next(cfg, s, step))
  {
    var s', me := Next(cfg, s, step), step.j;
    assert ScanOk(cfg, s, me);
    forall j, p, k | PendingAt(s, j, p, k) ensures PendingAt(s', j, p, k) { }
    forall b: nat, k | cfg.Has(me, b, k) && b < s'.scans[me].bundle ensures k in s'.kv {
      if b == s.scans[me].bundle {
        var i :| 0 <= i < |Current(cfg, s, me)| && Current(cfg, s, me)[i] == k;
      }
    }
    OthersStay(cfg, s, s', me);
    FromKept(cfg, s, s');
  }

  lemma FollowsMore(keys: seq<Key>, more: seq<Key>, p: nat, l: Key)
    requires Follows(keys, p, l)
    ensures Follows(keys + more, p, l)
  {
    var j :| p < j < |keys| && keys[j] == l;
    assert (keys + more)[j] == l;
  }

  /** Gathering a root puts its leaves behind it, and keeps what was gathered. */
  lemma Gather(cfg: Config, keys: seq<Key>, root: Key)
    ensures var keys' := keys + [root] + cfg.LeavesOf(root);
      && GatheredAt(cfg, keys', |keys|, root)
      && forall p, r :: GatheredAt(cfg, keys, p, r) ==> GatheredAt(cfg, keys', p, r)
  {
    var ls := cfg.LeavesOf(root);
    var keys' := keys + [root] + ls;
    forall l | l in ls ensures Follows(keys', |keys|, l) {
      var x :| 0 <= x < |ls| && ls[x] == l;
      assert keys'[|keys| + 1 + x] == l;
    }
    forall p, r | GatheredAt(cfg, keys, p, r) ensures GatheredAt(cfg, keys', p, r) {
      forall l | l in cfg.LeavesOf(r) ensures Follows(keys', p, l) {
        assert Follows(keys, p, l);
        FollowsMore(keys, [root] + ls, p, l);
        assert keys + ([root] + ls) == keys';
      }
    }
  }

  /** A covered root is indexed, or in the scanner's own bundle. */
  lemma CoveredIsIndexed(cfg: Config, s: State, j: nat, k: Key)
    requires Inv(cfg, s) && InOrder(cfg, s) && Active(cfg, s, j) && cfg.Covered(j, s.scans[j].bundle, k)
    ensures k in s.kv || k in Current(cfg, s, j)
  {
    assert OrderOk(cfg, s, j) && ScanOk(cfg, s, j);
    if i: nat :| cfg.InRepo(i, k) && cfg.repos[i].context < cfg.repos[j].context {
      assert i < j;
      ThroughIsIndexed(cfg, s, i, k);
    } else if |cfg.Rivals(j, k)| >= cfg.parallel {
      if cfg.Rivals(j, k) <= Late(cfg, s, j) { SubsetSize(cfg.Rivals(j, k), Late(cfg, s, j)); }
      var i :| i in cfg.Rivals(j, k) && i !in Late(cfg, s, j);
      ThroughIsIndexed(cfg, s, i, k);
    }
  }

  lemma ThroughIsIndexed(cfg: Config, s: State, i: nat, k: Key)
    requires Inv(cfg, s) && i < |s.scans| && !Active(cfg, s, i) && cfg.InRepo(i, k)
    ensures k in s.kv
  {
    assert ScanOk(cfg, s, i);
    var b :| cfg.Has(i, b, k);
  }

  lemma VisitRootOk(cfg: Config, s: State, j: nat, k: Key)
    requires cfg.Harmless() && Inv(cfg, s) && InOrder(cfg, s) && Enabled(cfg, s, Visit(j))
    requires cfg.IsRoot(k) && k in Next(cfg, s, Visit(j)).scans[j].keys
    ensures RootOk(cfg, Next(cfg, s, Visit(j)), j, k)
  {
    var s', sc, here := Next(cfg, s, Visit(j)), s.scans[j], Current(cfg, s, j);
    var root := here[sc.at];
    assert ScanOk(cfg, s, j);
    Gather(cfg, sc.keys, root);
    assert here[sc.at..] == [root] + here[sc.at + 1..];
    if k == root {
      assert root in s.kv || GatheredAt(cfg, s'.scans[j].keys, |sc.keys|, root);
    } else if k in sc.keys {
      assert RootOk(cfg, s, j, k);
    } else {
      // a leaf of the root just gathered, and a root itself
      assert k in cfg.LeavesOf(root) && cfg.Has(j, sc.bundle, root);
      if cfg.LeavesOf(k) != [] {
        CoveredIsIndexed(cfg, s, j, k);
        if k !in s.kv {
          // in this bundle, ahead of us: behind us it would have been gathered
          var x :| 0 <= x < |here| && here[x] == k;
          assert x > sc.at && here[sc.at + 1..][x - sc.at - 1] == k;
        }
      }
    }
  }

  lemma VisitScanOk(cfg: Config, s: State, j: nat)
    requires cfg.Harmless() && Inv(cfg, s) && InOrder(cfg, s) && Enabled(cfg, s, Visit(j))
    ensures var s' := Next(cfg, s, Visit(j)); ScanOk(cfg, s', j) && KeysOk(cfg, s', j)
  {
    var s', sc, here := Next(cfg, s, Visit(j)), s.scans[j], Current(cfg, s, j);
    var root := here[sc.at];
    assert ScanOk(cfg, s, j);
    assert cfg.Has(j, sc.bundle, root) && cfg.InRepo(j, root) && cfg.IsRoot(root);
    forall i | 0 <= i < s'.scans[j].at ensures here[i] in s'.kv || here[i] in s'.scans[j].keys {
      if i == sc.at && root !in s.kv { assert s'.scans[j].keys[|sc.keys|] == root; }
    }
    forall k | k in s'.scans[j].keys ensures cfg.IsRoot(k) || cfg.IsLeaf(k) {
      if k !in sc.keys && k != root { assert k in cfg.LeavesOf(root); }
    }
    forall k | k in s'.scans[j].keys && cfg.IsRoot(k) ensures RootOk(cfg, s', j, k) { VisitRootOk(cfg, s, j, k); }
  }

  lemma VisitKeeps(cfg: Config, s: State, step: Step)
    requires cfg.Harmless() && Inv(cfg, s) && InOrder(cfg, s) && Enabled(cfg, s, step) && step.Visit?
    ensures Inv(cfg, Next(cfg, s, step))
  {
    var s' := Next(cfg, s, step);
    VisitScanOk(cfg, s, step.j);
    forall j, p, k | PendingAt(s, j, p, k) ensures PendingAt(s', j, p, k) { }
    OthersStay(cfg, s, s', step.j);
    FromKept(cfg, s, s');
  }

  /** A root that is stored for the first time has its leaves pending behind it. */
  lemma StoredRoot(cfg: Config, s: State, j: nat, l: Key)
    requires ScanOk(cfg, s, j) && KeysOk(cfg, s, j) && Enabled(cfg, s, Store(j))
    requires var k := s.scans[j].keys[s.scans[j].stored]; k !in s.kv && cfg.IsRoot(k) && l in cfg.LeavesOf(k)
    ensures LeafSafe(Next(cfg, s, Store(j)), l)
  {
    var s', sc := Next(cfg, s, Store(j)), s.scans[j];
    var k := sc.keys[sc.stored];
    assert RootOk(cfg, s, j, k);
    var p: nat :| GatheredAt(cfg, sc.keys, p, k);
    assert p >= sc.stored;
    assert Follows(sc.keys, p, l);
    var q :| p < q < |sc.keys| && sc.keys[q] == l;
    assert PendingAt(s', j, q, l);
  }

  lemma StoreScanOk(cfg: Config, s: State, j: nat)
    requires ScanOk(cfg, s, j) && KeysOk(cfg, s, j) && Enabled(cfg, s, Store(j))
    ensures var s' := Next(cfg, s, Store(j)); ScanOk(cfg, s', j) && KeysOk(cfg, s', j)
  {
    var s' := Next(cfg, s, Store(j));
    forall k | k in s'.scans[j].keys && cfg.IsRoot(k) ensures RootOk(cfg, s', j, k) { assert RootOk(cfg, s, j, k); }
  }

  lemma StoreKeeps(cfg: Config, s: State, step: Step)
    requires Inv(cfg, s) && Enabled(cfg, s, step) && step.Store?
    ensures Inv(cfg, Next(cfg, s, step))
  {
    var s' := Next(cfg, s, step);
    assert ScanOk(cfg, s, step.j);
    forall j, p, k | PendingAt(s, j, p, k) ensures PendingAt(s', j, p, k) || k in s'.kv { }
    StoreScanOk(cfg, s, step.j);
    OthersStay(cfg, s, s', step.j);
    forall r, l | r in s'.kv && r !in s.kv && cfg.IsRoot(r) && l in cfg.LeavesOf(r) ensures LeafSafe(s', l) {
      StoredRoot(cfg, s, step.j, l);
    }
    FromKept(cfg, s, s');
  }

  // ---------------------------------------------------------------- whole runs

  ghost predicate IsRun(cfg: Config, steps: seq<Step>)
    decreases |steps|, 0
  {
    var n := |steps| - 1;
    steps == [] || (IsRun(cfg, steps[..n]) && Enabled(cfg, After(cfg, steps[..n]), steps[n]))
  }

  ghost function After(cfg: Config, steps: seq<Step>): (s: State)
    requires IsRun(cfg, steps)
    decreases |steps|, 1
  {
    var n := |steps| - 1;
    if steps == [] then Init else Next(cfg, After(cfg, steps[..n]), steps[n])
  }

  lemma {:induction false} RunKeeps(cfg: Config, steps: seq<Step>)
    requires cfg.Harmless() && IsRun(cfg, steps)
    ensures Inv(cfg, After(cfg, steps)) && InOrder(cfg, After(cfg, steps))
    decreases |steps|
  {
    if steps != [] {
      var n := |steps| - 1;
      RunKeeps(cfg, steps[..n]);
      var s, step := After(cfg, steps[..n]), steps[n];
      StepKeepsOrder(cfg, s, step);
      match step {
        case Begin => BeginKeeps(cfg, s);
        case NextBundle(_) => NextBundleKeeps(cfg, s, step);
        case Visit(_) => VisitKeeps(cfg, s, step);
        case Store(_) => StoreKeeps(cfg, s, step);
        case NewChunk => UploadKeeps(cfg, s, step);
        case Upload(_) => UploadKeeps(cfg, s, step);
      }
    }
  }

  lemma {:induction false} RunKeepsChunked(cfg: Config, steps: seq<Step>)
    requires IsRun(cfg, steps)
    ensures var s := After(cfg, steps); Chunked(s.kv, s.chunks)
    decreases |steps|
  {
    if steps != [] {
      var n := |steps| - 1;
      RunKeepsChunked(cfg, steps[..n]);
      var s, step := After(cfg, steps[..n]), steps[n];
      if step.NewChunk? { NewChunkKeepsChunked(s.kv, s.chunks); }
      if step.Upload? { UploadKeepsChunked(s.kv, s.chunks, step.key); }
      if step.Store? {
        var k := s.scans[step.j].keys[s.scans[step.j].stored];
        assert k !in s.kv ==> k !in Flatten(s.chunks);
      }
    }
  }

  /** Every scanner has run to its end. */
  ghost predicate AllDone(cfg: Config, s: State) {
    |s.scans| == |cfg.repos| && forall j: nat :: j < |cfg.repos| ==> !Active(cfg, s, j)
  }

  /** When all scanners are through, the index is exactly the roots of the bundles and their leaves. */
  lemma MarkIsComplete(cfg: Config, steps: seq<Step>, k: Key)
    requires cfg.Harmless() && IsRun(cfg, steps) && AllDone(cfg, After(cfg, steps))
    ensures k in After(cfg, steps).kv <==> cfg.IsRoot(k) || cfg.IsLeaf(k)
  {
    var s := After(cfg, steps);
    RunKeeps(cfg, steps);
    forall r | cfg.IsRoot(r) ensures r in s.kv {
      var j :| cfg.InRepo(j, r);
      var b :| cfg.Has(j, b, r);
      assert !Active(cfg, s, j);
      ThroughIsIndexed(cfg, s, j, r);
    }
    if cfg.IsLeaf(k) {
      var r :| cfg.IsRoot(r) && k in cfg.LeavesOf(r);
      assert LeafSafe(s, k);
      forall j: nat, p: nat | j < |s.scans| ensures !PendingAt(s, j, p, k) { assert ScanOk(cfg, s, j) && !Active(cfg, s, j); }
    }
  }

  ghost predicate Reachable(cfg: Config, s: State) { exists steps :: IsRun(cfg, steps) && After(cfg, steps) == s }

  lemma Take(cfg: Config, s: State, step: Step, s': State)
    requires Reachable(cfg, s) && Enabled(cfg, s, step) && Next(cfg, s, step) == s'
    ensures Reachable(cfg, s')
  {
    var steps :| IsRun(cfg, steps) && After(cfg, steps) == s;
    var longer := steps + [step];
    assert longer[..|steps|] == steps && longer[|steps|] == step;
    assert IsRun(cfg, longer) && After(cfg, longer) == s';
  }

}
