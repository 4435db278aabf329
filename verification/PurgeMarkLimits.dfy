/** Exactly when the mark phase of the purge indexes every key, whatever the schedule of its scanners. */
module PurgeMarkLimits {
  import opened Chunking
  import opened PurgeMark

  // ---------------------------------------------------------------- one bundle

  /** What a scanner gathers from these roots when nothing is indexed meanwhile. */
  function Gathered(cfg: Config, kv: set<Key>, roots: seq<Key>): (keys: seq<Key>) {
    if roots == [] then []
    else
      var n := |roots| - 1;
      Gathered(cfg, kv, roots[..n]) + if roots[n] in kv then [] else [roots[n]] + cfg.LeavesOf(roots[n])
  }

  predicate From(cfg: Config, kv: set<Key>, roots: seq<Key>, i: nat, k: Key) {
    i < |roots| && roots[i] !in kv && (k == roots[i] || k in cfg.LeavesOf(roots[i]))
  }

  /** The roots that are not indexed, and their leaves. */
  lemma {:induction false} GatheredIff(cfg: Config, kv: set<Key>, roots: seq<Key>, k: Key)
    ensures k in Gathered(cfg, kv, roots) <==> exists i :: From(cfg, kv, roots, i, k)
    decreases |roots|
  {
    if roots != [] {
      var n := |roots| - 1;
      GatheredIff(cfg, kv, roots[..n], k);
      if i :| From(cfg, kv, roots, i, k) { assert i == n || From(cfg, kv, roots[..n], i, k); }
      if i :| From(cfg, kv, roots[..n], i, k) { assert From(cfg, kv, roots, i, k); }
      if k in Gathered(cfg, kv, roots) && k !in Gathered(cfg, kv, roots[..n]) { assert From(cfg, kv, roots, n, k); }
    }
  }

  /** The scanner is about to begin a bundle. */
  function Fresh(bundle: nat): (sc: Scan) { Scan(bundle, 0, [], 0) }

  lemma GatheredNext(cfg: Config, kv: set<Key>, roots: seq<Key>, n: nat)
    requires n < |roots|
    ensures var before, root := Gathered(cfg, kv, roots[..n]), roots[n];
      Gathered(cfg, kv, roots[..n + 1]) == if root in kv then before else before + [root] + cfg.LeavesOf(root)
  {
    assert roots[..n + 1][..n] == roots[..n];
    var before, root := Gathered(cfg, kv, roots[..n]), roots[n];
    assert before + [root] + cfg.LeavesOf(root) == before + ([root] + cfg.LeavesOf(root)) && before + [] == before;
  }

  /** The scanner has visited `n` roots of its bundle, and these are its keys. */
  function Visited(s: State, j: nat, n: nat, keys: seq<Key>): (t: State)
    requires j < |s.scans|
  {
    s.(scans := s.scans[j := Scan(s.scans[j].bundle, n, keys, 0)])
  }

  lemma VisitNext(cfg: Config, s: State, j: nat, n: nat, keys: seq<Key>)
    requires Active(cfg, s, j) && n < |Current(cfg, s, j)| && Reachable(cfg, Visited(s, j, n, keys))
    ensures var root := Current(cfg, s, j)[n];
      Reachable(cfg, Visited(s, j, n + 1, if root in s.kv then keys else keys + [root] + cfg.LeavesOf(root)))
  {
    var s1, root := Visited(s, j, n, keys), Current(cfg, s, j)[n];
    var t := Visited(s, j, n + 1, if root in s.kv then keys else keys + [root] + cfg.LeavesOf(root));
    assert s1.scans[j := t.scans[j]] == t.scans;
    Take(cfg, s1, Visit(j), t);
  }

  lemma {:induction false} VisitSome(cfg: Config, s: State, j: nat, n: nat)
    requires Reachable(cfg, s) && Active(cfg, s, j) && s.scans[j] == Fresh(s.scans[j].bundle) && n <= |Current(cfg, s, j)|
    ensures Reachable(cfg, Visited(s, j, n, Gathered(cfg, s.kv.Keys, Current(cfg, s, j)[..n])))
    decreases n
  {
    var here := Current(cfg, s, j);
    if n == 0 {
      assert Visited(s, j, 0, []) == s;
    } else {
      VisitSome(cfg, s, j, n - 1);
      VisitNext(cfg, s, j, n - 1, Gathered(cfg, s.kv.Keys, here[..n - 1]));
      GatheredNext(cfg, s.kv.Keys, here, n - 1);
    }
  }

  lemma StoreNext(cfg: Config, s: State, j: nat) returns (t: State)
    requires Reachable(cfg, s) && Enabled(cfg, s, Store(j))
    ensures Reachable(cfg, t) && t.scans == s.scans[j := s.scans[j].(stored := s.scans[j].stored + 1)]
    ensures forall k :: k in t.kv <==> k in s.kv || k == s.scans[j].keys[s.scans[j].stored]
  {
    t := Next(cfg, s, Store(j));
    Take(cfg, s, Store(j), t);
  }

  lemma {:induction false} StoreSome(cfg: Config, s: State, j: nat, n: nat) returns (t: State)
    requires Reachable(cfg, s) && Active(cfg, s, j) && s.scans[j].at == |Current(cfg, s, j)| && s.scans[j].stored == 0
    requires n <= |s.scans[j].keys|
    ensures Reachable(cfg, t) && t.scans == s.scans[j := s.scans[j].(stored := n)]
    ensures forall k :: k in t.kv <==> k in s.kv || k in s.scans[j].keys[..n]
    decreases n
  {
    var keys := s.scans[j].keys;
    if n == 0 {
      t := s;
    } else {
      var s1 := StoreSome(cfg, s, j, n - 1);
      t := StoreNext(cfg, s1, j);
      assert s1.scans[j := t.scans[j]] == s.scans[j := t.scans[j]];
      assert keys[..n] == keys[..n - 1] + [keys[n - 1]];
    }
  }

  lemma RunBundle(cfg: Config, s: State, j: nat) returns (t: State)
    requires Reachable(cfg, s) && Active(cfg, s, j) && s.scans[j] == Fresh(s.scans[j].bundle)
    ensures Reachable(cfg, t) && t.scans == s.scans[j := Fresh(s.scans[j].bundle + 1)]
    ensures forall k :: k in t.kv <==> k in s.kv || k in Gathered(cfg, s.kv.Keys, Current(cfg, s, j))
  {
    var here := Current(cfg, s, j);
    assert here[..|here|] == here;
    VisitSome(cfg, s, j, |here|);
    var s1 := Visited(s, j, |here|, Gathered(cfg, s.kv.Keys, here));
    t := LeaveBundle(cfg, s1, j);
    assert s1.scans[j := t.scans[j]] == s.scans[j := t.scans[j]];
  }

  lemma LeaveBundle(cfg: Config, s: State, j: nat) returns (t: State)
    requires Reachable(cfg, s) && Active(cfg, s, j) && s.scans[j].at == |Current(cfg, s, j)| && s.scans[j].stored == 0
    ensures Reachable(cfg, t) && t.scans == s.scans[j := Fresh(s.scans[j].bundle + 1)]
    ensures forall k :: k in t.kv <==> k in s.kv || k in s.scans[j].keys
  {
    var keys := s.scans[j].keys;
    assert keys[..|keys|] == keys;
    var s1 := StoreSome(cfg, s, j, |keys|);
    t := s1.(scans := s1.scans[j := Fresh(s.scans[j].bundle + 1)]);
    Take(cfg, s1, NextBundle(j), t);
  }

  // ---------------------------------------------------------------- between bundles

  /** The leaf belongs to one root only, and is no root. */
  ghost predicate OnlyLeafOf(cfg: Config, r: Key, l: Key) {
    cfg.IsRoot(r) && l in cfg.LeavesOf(r) && !cfg.IsRoot(l) && forall q :: cfg.IsRoot(q) && l in cfg.LeavesOf(q) ==> q == r
  }

  /** A leaf that only one root has is indexed together with all of that root's leaves. */
  ghost predicate Linked(cfg: Config, kv: map<Key, bool>) {
    forall r, l, k :: OnlyLeafOf(cfg, r, l) && l in kv && k in cfg.LeavesOf(r) ==> k in kv
  }

  /** A state between bundles: no scanner holds keys. */
  ghost predicate Calm(cfg: Config, s: State) {
    && Reachable(cfg, s) && |s.scans| <= |cfg.repos| && Linked(cfg, s.kv)
    && forall j: nat :: j < |s.scans| ==> IsFresh(cfg, s, j)
  }

  ghost predicate IsFresh(cfg: Config, s: State, j: nat) {
    j < |s.scans| && j < |cfg.repos| && s.scans[j] == Fresh(s.scans[j].bundle) && s.scans[j].bundle <= |cfg.repos[j].bundles|
  }

  lemma CurrentIsRoot(cfg: Config, s: State, j: nat, i: nat)
    requires Active(cfg, s, j) && i < |Current(cfg, s, j)|
    ensures cfg.Has(j, s.scans[j].bundle, Current(cfg, s, j)[i]) && cfg.IsRoot(Current(cfg, s, j)[i])
  {
    var r := Current(cfg, s, j)[i];
    assert cfg.Has(j, s.scans[j].bundle, r) && cfg.InRepo(j, r);
  }

  /** Such a leaf is gathered only if its root is visited and not indexed. */
  lemma GatheredLeaf(cfg: Config, s: State, j: nat, r: Key, l: Key)
    requires Active(cfg, s, j) && OnlyLeafOf(cfg, r, l) && l in Gathered(cfg, s.kv.Keys, Current(cfg, s, j))
    ensures cfg.Has(j, s.scans[j].bundle, r) && r !in s.kv
    ensures forall k :: k in cfg.LeavesOf(r) ==> k in Gathered(cfg, s.kv.Keys, Current(cfg, s, j))
  {
    var here := Current(cfg, s, j);
    GatheredIff(cfg, s.kv.Keys, here, l);
    var i :| From(cfg, s.kv.Keys, here, i, l);
    CurrentIsRoot(cfg, s, j, i);
    forall k | k in cfg.LeavesOf(r) ensures k in Gathered(cfg, s.kv.Keys, here) {
      GatheredIff(cfg, s.kv.Keys, here, k);
      assert From(cfg, s.kv.Keys, here, i, k);
    }
  }

  lemma BundleLinked(cfg: Config, s: State, j: nat, t: State)
    requires Linked(cfg, s.kv) && Active(cfg, s, j)
    requires forall k :: k in t.kv <==> k in s.kv || k in Gathered(cfg, s.kv.Keys, Current(cfg, s, j))
    ensures Linked(cfg, t.kv)
  {
    forall r, l, k | OnlyLeafOf(cfg, r, l) && l in t.kv && k in cfg.LeavesOf(r) ensures k in t.kv {
      if l !in s.kv { GatheredLeaf(cfg, s, j, r, l); }
    }
  }

  /** The roots of the bundle are indexed, and a leaf that only a root elsewhere has is not. */
  lemma ScanBundle(cfg: Config, s: State, j: nat, q: Key, m: Key) returns (t: State)
    requires Calm(cfg, s) && Active(cfg, s, j) && OnlyLeafOf(cfg, q, m) && m !in s.kv
    requires q in s.kv || !cfg.Has(j, s.scans[j].bundle, q)
    ensures Calm(cfg, t) && t.scans == s.scans[j := Fresh(s.scans[j].bundle + 1)] && m !in t.kv
    ensures forall k :: k in s.kv || cfg.Has(j, s.scans[j].bundle, k) ==> k in t.kv
  {
    var here := Current(cfg, s, j);
    assert IsFresh(cfg, s, j);
    t := RunBundle(cfg, s, j);
    BundleLinked(cfg, s, j, t);
    if m in t.kv { GatheredLeaf(cfg, s, j, q, m); }
    forall k | cfg.Has(j, s.scans[j].bundle, k) ensures k in t.kv {
      var i: nat :| i < |here| && here[i] == k;
      GatheredIff(cfg, s.kv.Keys, here, k);
      assert k in s.kv || From(cfg, s.kv.Keys, here, i, k);
    }
    forall i: nat | i < |t.scans| ensures IsFresh(cfg, t, i) { assert IsFresh(cfg, s, i); }
  }

  /** The scanner goes on to the beginning of bundle `n`. */
  lemma {:induction false} ScanTo(cfg: Config, s: State, j: nat, n: nat, q: Key, m: Key) returns (t: State)
    requires Calm(cfg, s) && j < |s.scans| && s.scans[j].bundle <= n <= |cfg.repos[j].bundles| && OnlyLeafOf(cfg, q, m) && m !in s.kv
    requires q in s.kv || forall b: nat :: b < n ==> !cfg.Has(j, b, q)
    ensures Calm(cfg, t) && t.scans == s.scans[j := Fresh(n)] && m !in t.kv
    ensures forall k :: k in s.kv ==> k in t.kv
    ensures forall b: nat, k :: s.scans[j].bundle <= b < n && cfg.Has(j, b, k) ==> k in t.kv
    decreases n - s.scans[j].bundle
  {
    assert IsFresh(cfg, s, j);
    if s.scans[j].bundle == n {
      t := s;
    } else {
      var s1 := ScanBundle(cfg, s, j, q, m);
      assert s1.scans[j := Fresh(n)] == s.scans[j := Fresh(n)];
      t := ScanTo(cfg, s1, j, n, q, m);
      forall b: nat, k | s.scans[j].bundle <= b < n && cfg.Has(j, b, k) ensures k in t.kv {
        if b == s.scans[j].bundle { assert k in s1.kv; }
      }
    }
  }

  /** The scanners that are not through. */
  ghost function Busy(cfg: Config, s: State): (js: set<nat>) { set i: nat | i < |s.scans| && Active(cfg, s, i) }

  lemma BeginNext(cfg: Config, s: State) returns (t: State)
    requires Calm(cfg, s) && |s.scans| < |cfg.repos| && |Busy(cfg, s)| < cfg.parallel
    requires forall i :: i in Busy(cfg, s) ==> cfg.repos[i].context == cfg.repos[|s.scans|].context
    ensures Calm(cfg, t) && t.scans == s.scans + [Fresh(0)] && t.kv == s.kv
  {
    t := s.(scans := s.scans + [Fresh(0)]);
    assert Busy(cfg, s) == set i: nat | i < |s.scans| && Active(cfg, s, i);
    forall i: nat | i < |s.scans| && Active(cfg, s, i) ensures cfg.repos[i].context == cfg.repos[|s.scans|].context {
      assert i in Busy(cfg, s);
    }
    Take(cfg, s, Begin, t);
    forall i: nat | i < |t.scans| ensures IsFresh(cfg, t, i) { if i < |s.scans| { assert IsFresh(cfg, s, i); } }
  }

  // ---------------------------------------------------------------- the schedule that misses a leaf

  /** The scanners that are under way are rivals of repo `j`: they have the root, and wait at their beginning. */
  ghost predicate Stalled(cfg: Config, s: State, j: nat, k: Key)
    requires j < |cfg.repos|
  {
    Busy(cfg, s) <= cfg.Rivals(j, k)
  }

  lemma StalledBegins(cfg: Config, s: State, j: nat, k: Key) returns (t: State)
    requires Calm(cfg, s) && j < |cfg.repos| && |s.scans| <= j && Stalled(cfg, s, j, k) && |cfg.Rivals(j, k)| < cfg.parallel
    ensures Calm(cfg, t) && t.scans == s.scans + [Fresh(0)] && t.kv == s.kv
  {
    SubsetSize(Busy(cfg, s), cfg.Rivals(j, k));
    forall i | i in Busy(cfg, s) ensures cfg.repos[i].context == cfg.repos[|s.scans|].context {
      assert i in cfg.Rivals(j, k);
    }
    t := BeginNext(cfg, s);
  }

  /** The first `n` repos have begun; those that do not have the root are through. */
  lemma {:induction false} Prepare(cfg: Config, j: nat, k: Key, l: Key, n: nat) returns (s: State)
    requires n <= j < |cfg.repos| && OnlyLeafOf(cfg, k, l) && |cfg.Rivals(j, k)| < cfg.parallel
    requires forall i: nat :: cfg.InRepo(i, k) ==> cfg.repos[i].context >= cfg.repos[j].context
    ensures Calm(cfg, s) && |s.scans| == n && l !in s.kv && Stalled(cfg, s, j, k)
    decreases n
  {
    if n == 0 {
      assert After(cfg, []) == Init && Reachable(cfg, Init);
      s := Init;
    } else {
      var s0 := Prepare(cfg, j, k, l, n - 1);
      s := StalledBegins(cfg, s0, j, k);
      if n - 1 !in cfg.Rivals(j, k) {
        var s1 := s;
        NotInRepo(cfg, j, k, n - 1);
        s := ScanTo(cfg, s1, n - 1, |cfg.repos[n - 1].bundles|, k, l);
      }
      forall i | i in Busy(cfg, s) ensures i in cfg.Rivals(j, k) {
        if i < n - 1 { assert i in Busy(cfg, s0); }
      }
    }
  }

  lemma NotInRepo(cfg: Config, j: nat, k: Key, i: nat)
    requires i < j < |cfg.repos| && i !in cfg.Rivals(j, k)
    requires forall x: nat :: cfg.InRepo(x, k) ==> cfg.repos[x].context >= cfg.repos[j].context
    ensures forall b: nat :: !cfg.Has(i, b, k)
  {
    if b: nat :| cfg.Has(i, b, k) { assert cfg.InRepo(i, k); }
  }

  /** The scanners that have begun run to their ends, and skip the root, which is indexed. */
  lemma {:induction false} FinishBegun(cfg: Config, s: State, n: nat, q: Key, m: Key) returns (t: State)
    requires Calm(cfg, s) && n <= |s.scans| && OnlyLeafOf(cfg, q, m) && q in s.kv && m !in s.kv
    ensures Calm(cfg, t) && |t.scans| == |s.scans| && q in t.kv && m !in t.kv
    ensures forall i: nat :: i < n ==> !Active(cfg, t, i)
    decreases n
  {
    t := s;
    if n > 0 {
      var s1 := FinishBegun(cfg, s, n - 1, q, m);
      assert IsFresh(cfg, s1, n - 1);
      t := ScanTo(cfg, s1, n - 1, |cfg.repos[n - 1].bundles|, q, m);
      forall i: nat | i < n ensures !Active(cfg, t, i) { if i < n - 1 { assert !Active(cfg, s1, i); } }
    }
  }

  /** And then the others, one after another. */
  lemma {:induction false} FinishRest(cfg: Config, s: State, n: nat, q: Key, m: Key) returns (t: State)
    requires Calm(cfg, s) && |s.scans| <= n <= |cfg.repos| && OnlyLeafOf(cfg, q, m) && q in s.kv && m !in s.kv
    requires Busy(cfg, s) == {}
    ensures Calm(cfg, t) && |t.scans| == n && m !in t.kv && q in t.kv && Busy(cfg, t) == {}
    decreases n
  {
    t := s;
    if n > |s.scans| {
      var s1 := FinishRest(cfg, s, n - 1, q, m);
      var s2 := BeginNext(cfg, s1);
      t := ScanTo(cfg, s2, n - 1, |cfg.repos[n - 1].bundles|, q, m);
      forall i: nat | i < n ensures !Active(cfg, t, i) { if i < n - 1 { assert i !in Busy(cfg, s1); } }
    }
  }

  lemma FinishAll(cfg: Config, s: State, q: Key, m: Key)
    requires Calm(cfg, s) && OnlyLeafOf(cfg, q, m) && q in s.kv && m !in s.kv
    ensures Misses(cfg, m)
  {
    var s1 := FinishBegun(cfg, s, |s.scans|, q, m);
    assert Busy(cfg, s1) == {};
    var t := FinishRest(cfg, s1, |cfg.repos|, q, m);
    forall i: nat | i < |cfg.repos| ensures !Active(cfg, t, i) { assert i !in Busy(cfg, t); }
    assert AllDone(cfg, t);
  }

  /** Some run has all scanners run to their ends, and the key is not indexed. */
  ghost predicate Misses(cfg: Config, k: Key) {
    exists steps :: IsRun(cfg, steps) && AllDone(cfg, After(cfg, steps)) && k !in After(cfg, steps).kv
  }

  /** The keys of repo `j` are stored up to bundle `b`, and the root has not been visited anywhere. */
  lemma StoredUnvisited(cfg: Config, j: nat, b: nat, k: Key, l: Key) returns (s: State)
    requires j < |cfg.repos| && b < |cfg.repos[j].bundles| && OnlyLeafOf(cfg, k, l) && !cfg.Covered(j, b, k)
    ensures Calm(cfg, s) && l !in s.kv && forall r :: cfg.Has(j, b, r) ==> r in s.kv
  {
    s := Prepare(cfg, j, k, l, j);
    s := StalledBegins(cfg, s, j, k);
    s := ScanTo(cfg, s, j, b + 1, k, l);
  }

  /** If a file's leaf is the root of another file that is not always visited before, and each of the two files
      has a leaf of its own, then one of these leaves is missed in some run. */
  lemma SharedRootIsMissed(cfg: Config, j: nat, b: nat, r: Key, k: Key, l: Key, lr: Key)
    requires cfg.Has(j, b, r) && k in cfg.LeavesOf(r) && !cfg.Covered(j, b, k) && OnlyLeafOf(cfg, k, l) && OnlyLeafOf(cfg, r, lr)
    ensures Misses(cfg, l) || Misses(cfg, lr)
  {
    var s := StoredUnvisited(cfg, j, b, k, l);
    if k in s.kv {
      FinishAll(cfg, s, k, l);
    } else {
      // the root of the first file was indexed before, as a leaf of a third one
      FinishAll(cfg, s, r, lr);
    }
  }

  /** Every complete run indexes every root and every leaf. */
  ghost predicate AlwaysComplete(cfg: Config) {
    forall k :: cfg.IsRoot(k) || cfg.IsLeaf(k) ==> !Misses(cfg, k)
  }

  /** Every root with leaves has a leaf that is no root and no leaf of any other root. */
  ghost predicate OwnLeaves(cfg: Config) {
    forall r :: cfg.IsRoot(r) && cfg.LeavesOf(r) != [] ==> exists l :: OnlyLeafOf(cfg, r, l)
  }

  /** The mark phase is complete whatever the schedule, exactly if shared roots are harmless. */
  lemma CompleteIffHarmless(cfg: Config)
    requires OwnLeaves(cfg)
    ensures AlwaysComplete(cfg) <==> cfg.Harmless()
  {
    if cfg.Harmless() {
      forall k, steps | (cfg.IsRoot(k) || cfg.IsLeaf(k)) && IsRun(cfg, steps) && AllDone(cfg, After(cfg, steps))
        ensures k in After(cfg, steps).kv
      {
        MarkIsComplete(cfg, steps, k);
      }
    } else {
      var j, b, r, k :| cfg.Has(j, b, r) && k in cfg.LeavesOf(r) && cfg.IsRoot(k) && cfg.LeavesOf(k) != [] && !cfg.Covered(j, b, k);
      assert cfg.InRepo(j, r) && cfg.IsRoot(r);
      var l :| OnlyLeafOf(cfg, k, l);
      var lr :| OnlyLeafOf(cfg, r, lr);
      SharedRootIsMissed(cfg, j, b, r, k, l, lr);
      assert cfg.IsLeaf(l) && cfg.IsLeaf(lr);
    }
  }
}
