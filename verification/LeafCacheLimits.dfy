/** Exactly when the shared leaf cache is safe: as a property of runs, and as one of its configuration. */
module LeafCacheLimits {
  import opened Chunking
  import opened Cafs
  import opened CafsReadAt
  import opened LeafCache

  // ---------------------------------------------------------------- every disturbance is fatal

  ghost predicate AlwaysSafe(cfg: Config) { forall steps :: IsRun(cfg, steps) ==> Safe(cfg, After(cfg, steps)) }

  ghost predicate NeverDisturbed(cfg: Config) { forall steps :: IsRun(cfg, steps) ==> RunUndisturbed(cfg, steps) }

  /** Some run leads to the state. */
  ghost predicate Reachable(cfg: Config, s: State) { exists steps :: IsRun(cfg, steps) && After(cfg, steps) == s }

  lemma Take(cfg: Config, s: State, step: Step, s': State)
    requires Reachable(cfg, s) && Enabled(cfg, s, step) && Next(cfg, s, step) == s'
    ensures Reachable(cfg, s')
  {
    var steps :| IsRun(cfg, steps) && After(cfg, steps) == s;
    var longer := steps + [step];
    assert longer[..|steps|] == steps && longer[|steps|] == step;
    assert IsRun(cfg, longer) && After(cfg, longer) == s';
  }

  /** After a disturbing step the call can pin the buffer, and then a pinned buffer is on the free list. */
  lemma DisturbanceIsFatal(cfg: Config, s: State, step: Step) returns (t: State)
    requires Reachable(cfg, s) && Enabled(cfg, s, step) && Disturbs(cfg, s, step)
    requires forall id :: id in s.calls && s.calls[id].phase.Found? ==> At(s, id)
    ensures Reachable(cfg, t) && !Safe(cfg, t)
  {
    var id :| id in s.calls && s.calls[id].phase == Found(step.buf);
    var s1 := Next(cfg, s, step);
    Take(cfg, s, step, s1);
    assert forall i :: i in s1.calls ==> s1.calls[i] == s.calls[i];
    assert !Pinned(s1, step.buf);
    t := Next(cfg, s1, Pin(id));
    Take(cfg, s1, Pin(id), t);
    assert Pins(t.calls[id], step.buf);
    assert t.free[|s.free|] == step.buf && Pinned(t, t.free[|s.free|]);
  }

  /** The first step of a run that disturbs. */
  lemma {:induction false} FirstDisturbance(cfg: Config, steps: seq<Step>) returns (n: nat)
    requires IsRun(cfg, steps) && !RunUndisturbed(cfg, steps)
    ensures n < |steps| && IsRun(cfg, steps[..n]) && RunUndisturbed(cfg, steps[..n])
    ensures Enabled(cfg, After(cfg, steps[..n]), steps[n]) && Disturbs(cfg, After(cfg, steps[..n]), steps[n])
    decreases |steps|
  {
    n := |steps| - 1;
    if !RunUndisturbed(cfg, steps[..n]) {
      var m := FirstDisturbance(cfg, steps[..n]);
      assert steps[..n][..m] == steps[..m];
      n := m;
    }
  }

  lemma FoundIsAt(cfg: Config, s: State, roles: map<Buf, Role>)
    requires Inv(cfg, s, roles)
    ensures forall id :: id in s.calls && s.calls[id].phase.Found? ==> At(s, id)
  {
    forall id | id in s.calls && s.calls[id].phase.Found? ensures At(s, id) { assert CallOk(cfg, s, roles, id); }
  }

  lemma UnsafeState(cfg: Config, t: State)
    requires Reachable(cfg, t) && !Safe(cfg, t)
    ensures !AlwaysSafe(cfg)
  {
    var bad :| IsRun(cfg, bad) && After(cfg, bad) == t;
    assert !Safe(cfg, After(cfg, bad));
  }

  lemma DisturbedIsUnsafe(cfg: Config, steps: seq<Step>)
    requires IsRun(cfg, steps) && !RunUndisturbed(cfg, steps)
    ensures !AlwaysSafe(cfg)
  {
    var n := FirstDisturbance(cfg, steps);
    var s := After(cfg, steps[..n]);
    var roles := RunKeeps(cfg, steps[..n]);
    FoundIsAt(cfg, s, roles);
    var t := DisturbanceIsFatal(cfg, s, steps[n]);
    UnsafeState(cfg, t);
  }

  /** All runs are safe exactly if none is disturbed. */
  lemma SafeIffUndisturbed(cfg: Config)
    ensures AlwaysSafe(cfg) <==> NeverDisturbed(cfg)
  {
    if NeverDisturbed(cfg) {
      forall steps | IsRun(cfg, steps) ensures Safe(cfg, After(cfg, steps)) { UndisturbedRunIsSafe(cfg, steps); }
    } else {
      var steps :| IsRun(cfg, steps) && !RunUndisturbed(cfg, steps);
      DisturbedIsUnsafe(cfg, steps);
    }
  }

  // ---------------------------------------------------------------- caches that hold every leaf

  /** The keys that files can have: a leaf is not empty, and no longer than the leaf size. */
  function Live(cfg: Config): (ks: set<Key>) { set k | k in cfg.blobs && 0 < |cfg.blobs[k]| <= cfg.leafSize }

  /** Found buffers are still in the cache. */
  ghost predicate FoundIsCached(cfg: Config, s: State) {
    && (forall k :: k in s.cache ==> k in Live(cfg))
    && (forall id :: id in s.calls && s.calls[id].phase.Found? ==>
          At(s, id) && KeyOf(s, id) in s.cache && s.cache[KeyOf(s, id)] == s.calls[id].phase.buf)
  }

  lemma KeyIsLive(cfg: Config, c: Call)
    requires OnCourse(cfg, c) && c.index < |c.file.keys|
    ensures c.file.keys[c.index] in Live(cfg)
  {
    ChunksShape(c.file.content, cfg.leafSize);
  }

  lemma {:induction false} UniqueFits(ks: seq<Key>, all: set<Key>)
    requires Unique(ks) && forall k :: k in ks ==> k in all
    ensures |ks| <= |all|
  {
    if ks != [] {
      var n := |ks| - 1;
      assert ks[n] in ks && ks[n] !in ks[..n];
      UniqueFits(ks[..n], all - {ks[n]});
    }
  }

  /** With a slot for every leaf, a leaf is added without an eviction. */
  lemma NoEviction(cfg: Config, s: State, id: nat)
    requires |Live(cfg)| <= cfg.capacity && RecentOk(s) && FoundIsCached(cfg, s) && Enabled(cfg, s, Add(id))
    requires OnCourse(cfg, s.calls[id]) && KeyOf(s, id) !in s.cache
    ensures |s.recent| < cfg.capacity
  {
    KeyIsLive(cfg, s.calls[id]);
    UniqueFits(s.recent + [KeyOf(s, id)], Live(cfg));
  }

  /** No leaf is evicted. */
  ghost predicate Roomy(cfg: Config, s: State, step: Step)
    requires Enabled(cfg, s, step)
  {
    step.Add? ==> KeyOf(s, step.id) in Live(cfg) && (KeyOf(s, step.id) in s.cache || |s.recent| < cfg.capacity)
  }

  /** Without an eviction the cache only grows, by the key that is added. */
  lemma CacheGrows(cfg: Config, s: State, step: Step)
    requires Enabled(cfg, s, step) && Roomy(cfg, s, step)
    ensures var s' := Next(cfg, s, step);
      && (forall k :: k in s.cache ==> k in s'.cache && s'.cache[k] == s.cache[k])
      && (forall k :: k in s'.cache ==> k in s.cache || (step.Add? && k == KeyOf(s, step.id)))
  {
  }

  /** A call has found a buffer because it just looked it up, or had found it before. */
  lemma FoundBy(cfg: Config, s: State, step: Step, id: nat)
    requires Enabled(cfg, s, step) && id in Next(cfg, s, step).calls && Next(cfg, s, step).calls[id].phase.Found?
    ensures (id in s.calls && Next(cfg, s, step).calls[id] == s.calls[id]) ||
      (step == LookUp(id) && KeyOf(s, id) in s.cache && Next(cfg, s, step).calls[id] == s.calls[id].(phase := Found(s.cache[KeyOf(s, id)])))
  {
    if step.Copy? { AfterCopyPhase(s.calls[step.id], s.mem[s.calls[step.id].phase.buf]); }
  }

  lemma StillCached(cfg: Config, s: State, step: Step)
    requires Enabled(cfg, s, step) && Roomy(cfg, s, step) && FoundIsCached(cfg, s)
    ensures FoundIsCached(cfg, Next(cfg, s, step))
  {
    var s' := Next(cfg, s, step);
    CacheGrows(cfg, s, step);
    forall id | id in s'.calls && s'.calls[id].phase.Found?
      ensures At(s', id) && KeyOf(s', id) in s'.cache && s'.cache[KeyOf(s', id)] == s'.calls[id].phase.buf
    {
      FoundBy(cfg, s, step, id);
    }
  }

  lemma RoomyStep(cfg: Config, s: State, roles: map<Buf, Role>, step: Step)
    requires |Live(cfg)| <= cfg.capacity && Inv(cfg, s, roles) && FoundIsCached(cfg, s) && Enabled(cfg, s, step)
    ensures !Disturbs(cfg, s, step) && FoundIsCached(cfg, Next(cfg, s, step))
  {
    if step.Release? {
      forall id | id in s.calls && s.calls[id].phase.Found? ensures s.calls[id].phase.buf != step.buf {
        assert CacheOk(cfg, s, roles, KeyOf(s, id));
      }
    }
    if step.Add? {
      assert CallOk(cfg, s, roles, step.id);
      if KeyOf(s, step.id) !in s.cache { NoEviction(cfg, s, step.id); }
      KeyIsLive(cfg, s.calls[step.id]);
    }
    StillCached(cfg, s, step);
  }

  lemma {:induction false} RoomyRun(cfg: Config, steps: seq<Step>) returns (roles: map<Buf, Role>)
    requires |Live(cfg)| <= cfg.capacity && IsRun(cfg, steps)
    ensures RunUndisturbed(cfg, steps) && Inv(cfg, After(cfg, steps), roles) && FoundIsCached(cfg, After(cfg, steps))
    decreases |steps|
  {
    roles := map[];
    if steps != [] {
      var n := |steps| - 1;
      roles := RoomyRun(cfg, steps[..n]);
      var s := After(cfg, steps[..n]);
      RoomyStep(cfg, s, roles, steps[n]);
      roles := StepKeeps(cfg, s, roles, steps[n]);
    }
  }

  // ---------------------------------------------------------------- caches that do not: single calls

  /** A file of one leaf, the blob of this key. */
  function One(cfg: Config, key: Key): (f: Stream)
    requires key in cfg.blobs
  {
    Stream(cfg.blobs[key], [key])
  }

  lemma OneOk(cfg: Config, key: Key)
    requires key in Live(cfg)
    ensures One(cfg, key).Ok(cfg)
  {
    assert Chunks(cfg.blobs[key], cfg.leafSize) == [cfg.blobs[key]];
  }

  /** A call for the first `len` bytes of that file. */
  function Reads(cfg: Config, key: Key, len: nat, got: seq<Byte>, phase: Phase): (c: Call)
    requires key in cfg.blobs
  {
    Call(One(cfg, key), 0, len, 0, 0, got, phase)
  }

  /** No call pins a buffer. */
  ghost predicate Calm(s: State) {
    forall id :: id in s.calls ==> var p := s.calls[id].phase; p.Finished? || p.Missed? || p.Adding? || p.Found?
  }

  /** Nor holds the latch. */
  ghost predicate Open(s: State) { Calm(s) && !Latched(s) }

  lemma StartRun(cfg: Config, s: State, id: nat, key: Key, len: nat)
    requires Reachable(cfg, s) && id !in s.calls && key in Live(cfg)
    ensures Reachable(cfg, s.(calls := s.calls[id := Reads(cfg, key, len, [], Looking)]))
  {
    OneOk(cfg, key);
    var c := NewCall(cfg, One(cfg, key), 0, len);
    assert c.index == 0 && c.offset == 0;
    Take(cfg, s, Start(id, One(cfg, key), 0, len), s.(calls := s.calls[id := Reads(cfg, key, len, [], Looking)]));
  }

  /** The state once a new call has looked for its leaf; what it finds becomes the most recently used. */
  function Looked(cfg: Config, s: State, id: nat, key: Key, len: nat): (s': State)
    requires key in cfg.blobs
  {
    if key in s.cache then
      s.(calls := s.calls[id := Reads(cfg, key, len, [], Found(s.cache[key]))], recent := Without(s.recent, key) + [key])
    else s.(calls := s.calls[id := Reads(cfg, key, len, [], Missed)])
  }

  lemma LookRun(cfg: Config, s: State, id: nat, key: Key, len: nat)
    requires Reachable(cfg, s) && Open(s) && id !in s.calls && key in Live(cfg)
    ensures Reachable(cfg, Looked(cfg, s, id, key, len))
  {
    StartRun(cfg, s, id, key, len);
    var s1, s2 := s.(calls := s.calls[id := Reads(cfg, key, len, [], Looking)]), Looked(cfg, s, id, key, len);
    assert s1.calls[id := s2.calls[id]] == s2.calls;
    assert !Latched(s1);
    Take(cfg, s1, LookUp(id), s2);
  }

  /** The state with one call and one buffer replaced, and nothing free. */
  function With(s: State, id: nat, c: Call, b: Buf, bytes: seq<Byte>): (s': State) {
    s.(calls := s.calls[id := c], mem := s.mem[b := bytes], free := [])
  }

  lemma WithTwice(s: State, id: nat, c: Call, d: Call, b: Buf, bytes: seq<Byte>, more: seq<Byte>)
    ensures With(With(s, id, c, b, bytes), id, d, b, more) == With(s, id, d, b, more)
  {
    assert s.calls[id := c][id := d] == s.calls[id := d];
    assert s.mem[b := bytes][b := more] == s.mem[b := more];
  }

  /** The free buffer, or a new one. */
  predicate Available(s: State, b: Buf) { (s.free == [] && b !in s.mem) || s.free == [b] }

  /** A call that missed claims a buffer, which is emptied. */
  lemma ClaimRun(cfg: Config, s: State, id: nat, key: Key, b: Buf)
    requires Reachable(cfg, s) && key in Live(cfg) && id in s.calls && s.calls[id] == Reads(cfg, key, 0, [], Missed) && Available(s, b)
    ensures Reachable(cfg, With(s, id, Reads(cfg, key, 0, [], Claimed(b)), b, []))
  {
    Take(cfg, s, Get(id, b), With(s, id, Reads(cfg, key, 0, [], Claimed(b)), b, []));
  }

  /** A call copies as much as it asked for of what the buffer holds, whatever that is. */
  lemma CopyRun(cfg: Config, s: State, id: nat, key: Key, len: nat, b: Buf, mine: bool, there: seq<Byte>)
    requires Reachable(cfg, s) && key in Live(cfg) && id in s.calls && s.calls[id] == Reads(cfg, key, len, [], Reading(b, mine))
    requires b in s.mem && s.mem[b] == there
    ensures var got := there[..if |there| < len then |there| else len];
      Reachable(cfg, s.(calls := s.calls[id := if mine then Reads(cfg, key, len, got, Adding(b)) else Advance(Reads(cfg, key, len, got, Reading(b, mine)))]))
  {
    var c := s.calls[id];
    var n := if |there| < len then |there| else len;
    assert [] + there[0 .. 0 + n] == there[..n];
    assert CopyOut(c, there) == c.(got := there[..n]);
    Take(cfg, s, Copy(id), s.(calls := s.calls[id := AfterCopy(c, there)]));
  }

  /** It pins its buffer and fills it, and has copied all that it asked for: nothing. */
  lemma FillRun(cfg: Config, s: State, id: nat, key: Key, b: Buf)
    requires Reachable(cfg, s) && key in Live(cfg) && id in s.calls && s.calls[id] == Reads(cfg, key, 0, [], Claimed(b))
    requires b in s.mem && s.mem[b] == [] && s.free == [] && !Pinned(s, b)
    ensures Reachable(cfg, With(s, id, Reads(cfg, key, 0, [], Adding(b)), b, cfg.blobs[key]))
  {
    var blob := cfg.blobs[key];
    var s1 := SetPhase(s, id, Filling(b));
    Take(cfg, s, CheckClean(id), s1);
    var s2 := With(s, id, Reads(cfg, key, 0, [], Reading(b, true)), b, blob);
    assert [] + blob[0 .. |blob|] == blob;
    assert s1.calls[id := s2.calls[id]] == s2.calls;
    Take(cfg, s1, Fill(id, |blob|), s2);
    CopyRun(cfg, s2, id, key, 0, b, true, blob);
    assert s2.calls[id := Reads(cfg, key, 0, [], Adding(b))] == s.calls[id := Reads(cfg, key, 0, [], Adding(b))];
  }

  /** A call that missed reads its leaf into a buffer of its own. */
  lemma FetchRun(cfg: Config, s: State, id: nat, key: Key, b: Buf)
    requires Reachable(cfg, s) && Calm(s) && key in Live(cfg) && id in s.calls && s.calls[id] == Reads(cfg, key, 0, [], Missed)
    requires Available(s, b)
    ensures Reachable(cfg, With(s, id, Reads(cfg, key, 0, [], Adding(b)), b, cfg.blobs[key]))
  {
    ClaimRun(cfg, s, id, key, b);
    var claimed := Reads(cfg, key, 0, [], Claimed(b));
    var s1 := With(s, id, claimed, b, []);
    assert !Pinned(s1, b);
    FillRun(cfg, s1, id, key, b);
    WithTwice(s, id, claimed, Reads(cfg, key, 0, [], Adding(b)), b, [], cfg.blobs[key]);
  }

  /** A new call has loaded a leaf into a new buffer, of the same number. */
  function Loaded(cfg: Config, s: State, id: nat, key: Key): (s': State)
    requires key in cfg.blobs
  {
    With(s, id, Reads(cfg, key, 0, [], Adding(id)), id, cfg.blobs[key])
  }

  lemma LoadRun(cfg: Config, s: State, id: nat, key: Key)
    requires Reachable(cfg, s) && Open(s) && id !in s.calls && id !in s.mem && s.free == [] && key in Live(cfg) && key !in s.cache
    ensures Reachable(cfg, Loaded(cfg, s, id, key)) && Open(Loaded(cfg, s, id, key))
  {
    LookRun(cfg, s, id, key, 0);
    var s1 := s.(calls := s.calls[id := Reads(cfg, key, 0, [], Missed)]);
    FetchRun(cfg, s1, id, key, id);
    assert s1.calls[id := Reads(cfg, key, 0, [], Adding(id))] == s.calls[id := Reads(cfg, key, 0, [], Adding(id))];
  }

  /** And has added it to the cache. */
  function Stored(cfg: Config, s: State, id: nat, key: Key): (s': State)
    requires key in cfg.blobs
  {
    var s1 := Loaded(cfg, s, id, key);
    Insert(s1.(calls := s1.calls[id := Advance(s1.calls[id])]), key, id)
  }

  lemma StoreRun(cfg: Config, s: State, id: nat, key: Key)
    requires Reachable(cfg, s) && Open(s) && id !in s.calls && id !in s.mem && s.free == [] && key in Live(cfg) && key !in s.cache
    requires |s.recent| < cfg.capacity
    ensures Reachable(cfg, Stored(cfg, s, id, key)) && Open(Stored(cfg, s, id, key))
  {
    LoadRun(cfg, s, id, key);
    Take(cfg, Loaded(cfg, s, id, key), Add(id), Stored(cfg, s, id, key));
    assert Advance(Reads(cfg, key, 0, [], Adding(id))).phase == Finished;
  }

  // ---------------------------------------------------------------- caches that do not: the schedule

  /** One leaf more than the cache has slots for; the last one is the leaf that will be stolen. */
  ghost predicate Crowd(cfg: Config, all: seq<Key>) {
    && |all| == cfg.capacity + 1
    && (forall i :: 0 <= i < |all| ==> all[i] in Live(cfg))
    && forall i: nat, j: nat {:trigger Differ(all, i, j)} :: i < j < |all| ==> Differ(all, i, j)
  }

  predicate Differ(all: seq<Key>, i: nat, j: nat)
    requires i < |all| && j < |all|
  {
    all[i] != all[j]
  }

  lemma AllDiffer(cfg: Config, all: seq<Key>, i: nat)
    requires Crowd(cfg, all) && i < |all|
    ensures all[i] !in all[..i] && all[i] !in all[i + 1..]
  {
    forall x: nat | x < i ensures all[x] != all[i] { assert Differ(all, x, i); }
    forall x: nat | i < x < |all| ensures all[x] != all[i] { assert Differ(all, i, x); }
  }

  /** Call 2j + 1 has loaded leaf `j` and not added it yet. */
  ghost predicate Pending(cfg: Config, s: State, all: seq<Key>, j: nat)
    requires Crowd(cfg, all) && j < |all|
  {
    IsAt(s, 2 * j + 1, Reads(cfg, all[j], 0, [], Adding(2 * j + 1)))
  }

  /** So have these calls; call 0 has missed its leaf. */
  ghost predicate Waiting(cfg: Config, s: State, all: seq<Key>, k3: Key, from: nat, to: nat)
    requires Crowd(cfg, all) && k3 in Live(cfg) && to <= cfg.capacity
  {
    && IsAt(s, 0, Reads(cfg, k3, 0, [], Missed))
    && forall j: nat :: from <= j < to ==> Pending(cfg, s, all, j)
  }

  lemma StillWaiting(cfg: Config, s: State, t: State, all: seq<Key>, k3: Key, from: nat, from': nat, to: nat)
    requires Crowd(cfg, all) && k3 in Live(cfg) && to <= cfg.capacity && from <= from'
    requires Waiting(cfg, s, all, k3, from, to)
    requires forall id :: id in s.calls && (id == 0 || 2 * from' < id < 2 * to) ==> IsAt(t, id, s.calls[id])
    ensures Waiting(cfg, t, all, k3, from', to)
  {
    forall j: nat | from' <= j < to ensures Pending(cfg, t, all, j) {
      assert Pending(cfg, s, all, j);
    }
  }

  predicate IsAt(s: State, id: nat, c: Call) { id in s.calls && s.calls[id] == c }

  ghost predicate Below(s: State, n: nat) { (forall id :: id in s.calls ==> id < n) && (forall b :: b in s.mem ==> b < n) }

  /** The cache holds exactly these keys, used in this order. */
  ghost predicate Holds(s: State, ks: seq<Key>) { s.recent == ks && forall k :: k in s.cache <==> k in ks }

  /** The first `i` leaves are loaded to be added; all but the first of them are also in the cache. */
  ghost predicate Staged(cfg: Config, s: State, all: seq<Key>, k3: Key, i: nat)
    requires Crowd(cfg, all) && k3 in Live(cfg) && 1 <= i <= cfg.capacity
  {
    && Reachable(cfg, s) && Open(s) && s.free == [] && Below(s, 2 * i)
    && Holds(s, all[1..i]) && Waiting(cfg, s, all, k3, 0, i)
  }

  /** The calls that were there go on as they were. */
  ghost predicate Continues(s: State, t: State) { forall id :: id in s.calls ==> IsAt(t, id, s.calls[id]) }

  lemma LoadNew(cfg: Config, s: State, id: nat, key: Key, n: nat) returns (t: State)
    requires Reachable(cfg, s) && Open(s) && id !in s.calls && id !in s.mem && s.free == [] && key in Live(cfg) && key !in s.cache
    requires Below(s, n) && id < n
    ensures Reachable(cfg, t) && Open(t) && t.free == [] && t.cache == s.cache && t.recent == s.recent
    ensures Below(t, n) && Continues(s, t) && IsAt(t, id, Reads(cfg, key, 0, [], Adding(id)))
    ensures (forall m :: m in t.calls ==> m == id || m in s.calls) && (forall m :: m in t.mem ==> m == id || m in s.mem)
  {
    LoadRun(cfg, s, id, key);
    t := Loaded(cfg, s, id, key);
  }

  lemma StoreNew(cfg: Config, s: State, id: nat, key: Key, n: nat) returns (t: State)
    requires Reachable(cfg, s) && Open(s) && id !in s.calls && id !in s.mem && s.free == [] && key in Live(cfg) && key !in s.cache
    requires |s.recent| < cfg.capacity && Below(s, n) && id < n && Holds(s, s.recent)
    ensures Reachable(cfg, t) && Open(t) && t.free == [] && Below(t, n) && Continues(s, t) && Holds(t, s.recent + [key])
    ensures t.cache[key] == id && id in t.mem
  {
    StoreRun(cfg, s, id, key);
    t := Stored(cfg, s, id, key);
  }

  lemma FirstStage(cfg: Config, all: seq<Key>, k3: Key) returns (s: State)
    requires Crowd(cfg, all) && k3 in Live(cfg)
    ensures Staged(cfg, s, all, k3, 1)
  {
    assert After(cfg, []) == Init && Reachable(cfg, Init);
    LookRun(cfg, Init, 0, k3, 0);
    var s1 := Init.(calls := map[0 := Reads(cfg, k3, 0, [], Missed)]);
    assert s1.calls == Init.calls[0 := Reads(cfg, k3, 0, [], Missed)];
    s := LoadNew(cfg, s1, 1, all[0], 2);
    assert Pending(cfg, s, all, 0);
    assert all[1..1] == [];
  }

  lemma NextKey(cfg: Config, all: seq<Key>, i: nat)
    requires Crowd(cfg, all) && 1 <= i <= cfg.capacity
    ensures all[i] !in all[1..i] && all[1..i] + [all[i]] == all[1..i + 1]
  {
    AllDiffer(cfg, all, i);
    assert all[..i] == [all[0]] + all[1..i];
  }

  lemma OneMoreWaits(cfg: Config, s: State, t: State, all: seq<Key>, k3: Key, i: nat)
    requires Crowd(cfg, all) && k3 in Live(cfg) && i < cfg.capacity && Waiting(cfg, s, all, k3, 0, i)
    requires Continues(s, t) && IsAt(t, 2 * i + 1, Reads(cfg, all[i], 0, [], Adding(2 * i + 1)))
    ensures Waiting(cfg, t, all, k3, 0, i + 1)
  {
    StillWaiting(cfg, s, t, all, k3, 0, 0, i);
    assert Pending(cfg, t, all, i);
  }

  /** Leaf `i` is loaded to be added, too. */
  ghost predicate HalfStaged(cfg: Config, s: State, all: seq<Key>, k3: Key, i: nat)
    requires Crowd(cfg, all) && k3 in Live(cfg) && 1 <= i < cfg.capacity
  {
    && Reachable(cfg, s) && Open(s) && s.free == [] && Below(s, 2 * i + 2) && 2 * i !in s.calls && 2 * i !in s.mem
    && Holds(s, all[1..i]) && Waiting(cfg, s, all, k3, 0, i + 1)
  }

  lemma NewNumbers(s: State, n: nat)
    requires Below(s, n)
    ensures Below(s, n + 2) && n !in s.calls && n + 1 !in s.calls && n !in s.mem && n + 1 !in s.mem
  {
  }

  lemma NextIsNew(cfg: Config, s: State, all: seq<Key>, i: nat)
    requires Crowd(cfg, all) && 1 <= i <= cfg.capacity && Holds(s, all[1..i])
    ensures all[i] in Live(cfg) && all[i] !in s.cache
  {
    NextKey(cfg, all, i);
  }

  lemma FirstHalf(cfg: Config, s: State, all: seq<Key>, k3: Key, i: nat) returns (t: State)
    requires Crowd(cfg, all) && k3 in Live(cfg) && 1 <= i < cfg.capacity && Staged(cfg, s, all, k3, i)
    ensures HalfStaged(cfg, t, all, k3, i)
  {
    NextIsNew(cfg, s, all, i);
    NewNumbers(s, 2 * i);
    t := LoadNew(cfg, s, 2 * i + 1, all[i], 2 * i + 2);
    OneMoreWaits(cfg, s, t, all, k3, i);
  }

  lemma SecondHalf(cfg: Config, s: State, all: seq<Key>, k3: Key, i: nat) returns (t: State)
    requires Crowd(cfg, all) && k3 in Live(cfg) && 1 <= i < cfg.capacity && HalfStaged(cfg, s, all, k3, i)
    ensures Staged(cfg, t, all, k3, i + 1)
  {
    NextKey(cfg, all, i);
    t := StoreNew(cfg, s, 2 * i, all[i], 2 * i + 2);
    StillWaiting(cfg, s, t, all, k3, 0, 0, i + 1);
  }

  lemma {:induction false} Stage(cfg: Config, all: seq<Key>, k3: Key, i: nat) returns (s: State)
    requires Crowd(cfg, all) && k3 in Live(cfg) && 1 <= i <= cfg.capacity
    ensures Staged(cfg, s, all, k3, i)
    decreases i
  {
    if i == 1 {
      s := FirstStage(cfg, all, k3);
    } else {
      s := Stage(cfg, all, k3, i - 1);
      s := FirstHalf(cfg, s, all, k3, i - 1);
      s := SecondHalf(cfg, s, all, k3, i - 1);
    }
  }

  /** The keys in the order they were used, when the first `j` have been added again. */
  function Order(all: seq<Key>, j: nat): (ks: seq<Key>)
    requires j < |all|
  {
    all[j + 1..] + all[..j]
  }

  /** A call has found the last leaf, and `j` of the loaded leaves have been added since. */
  ghost predicate Rolled(cfg: Config, s: State, all: seq<Key>, k3: Key, len: nat, j: nat)
    requires Crowd(cfg, all) && k3 in Live(cfg) && j <= cfg.capacity
  {
    var n := cfg.capacity;
    && Reachable(cfg, s) && Calm(s) && s.free == [] && 2 * n in s.mem
    && Holds(s, Order(all, j)) && Waiting(cfg, s, all, k3, j, n)
    && IsAt(s, 2 * n + 1, Reads(cfg, all[n], len, [], Found(2 * n)))
    && if j < n then all[n] in s.cache && s.cache[all[n]] == 2 * n else 2 * n in s.releasing
  }

  lemma {:induction false} WithoutAbsent(ks: seq<Key>, k: Key)
    requires k !in ks
    ensures Without(ks + [k], k) == ks
  {
    if ks == [] {
      assert Without([k], k) == [] + Without([], k);
    } else {
      assert ks[0] in ks;
      WithoutAbsent(ks[1..], k);
      assert (ks + [k])[1..] == ks[1..] + [k] && ks == [ks[0]] + ks[1..];
    }
  }

  /** The last leaf is in the cache, most recently used, and the others wait to be added. */
  ghost predicate Full(cfg: Config, s: State, all: seq<Key>, k3: Key)
    requires Crowd(cfg, all) && k3 in Live(cfg)
  {
    var n := cfg.capacity;
    && Reachable(cfg, s) && Open(s) && s.free == [] && Below(s, 2 * n + 1) && 2 * n in s.mem
    && Holds(s, all[1..]) && all[n] in s.cache && s.cache[all[n]] == 2 * n && Waiting(cfg, s, all, k3, 0, n)
  }

  lemma StoreLast(cfg: Config, s: State, all: seq<Key>, k3: Key) returns (t: State)
    requires Crowd(cfg, all) && k3 in Live(cfg) && Staged(cfg, s, all, k3, cfg.capacity)
    ensures Full(cfg, t, all, k3)
  {
    var n := cfg.capacity;
    NextKey(cfg, all, n);
    t := StoreNew(cfg, s, 2 * n, all[n], 2 * n + 1);
    StillWaiting(cfg, s, t, all, k3, 0, 0, n);
    assert all[1..n + 1] == all[1..] && all[1..][n - 1] == all[n];
  }

  lemma LastIsNewest(cfg: Config, all: seq<Key>)
    requires Crowd(cfg, all)
    ensures var k := all[cfg.capacity]; Without(all[1..], k) + [k] == all[1..]
    ensures all[1..] == Order(all, 0)
  {
    var n := cfg.capacity;
    NextKey(cfg, all, n);
    WithoutAbsent(all[1..n], all[n]);
    assert all[1..n + 1] == all[1..];
  }

  lemma FullIsRolled(cfg: Config, s: State, all: seq<Key>, k3: Key, len: nat, t: State)
    requires Crowd(cfg, all) && k3 in Live(cfg) && Full(cfg, s, all, k3) && Reachable(cfg, t)
    requires t == Looked(cfg, s, 2 * cfg.capacity + 1, all[cfg.capacity], len)
    ensures Rolled(cfg, t, all, k3, len, 0)
  {
    LastIsNewest(cfg, all);
    assert t.recent == all[1..];
    assert Continues(s, t);
    StillWaiting(cfg, s, t, all, k3, 0, 0, cfg.capacity);
  }

  lemma FindLast(cfg: Config, s: State, all: seq<Key>, k3: Key, len: nat) returns (t: State)
    requires Crowd(cfg, all) && k3 in Live(cfg) && Full(cfg, s, all, k3)
    ensures Rolled(cfg, t, all, k3, len, 0)
  {
    LookRun(cfg, s, 2 * cfg.capacity + 1, all[cfg.capacity], len);
    t := Looked(cfg, s, 2 * cfg.capacity + 1, all[cfg.capacity], len);
    FullIsRolled(cfg, s, all, k3, len, t);
  }

  /** The order of use turns by one: the leaf that comes in is the only one that is not there. */
  lemma Turn(cfg: Config, all: seq<Key>, j: nat)
    requires Crowd(cfg, all) && j < cfg.capacity
    ensures var ks := Order(all, j);
      && |ks| == cfg.capacity && all[j] !in ks && ks[0] == all[j + 1]
      && ks[1..] + [all[j]] == Order(all, j + 1)
      && all[j + 1] !in ks[1..]
  {
    AllDiffer(cfg, all, j);
    AllDiffer(cfg, all, j + 1);
    assert all[..j + 1] == all[..j] + [all[j]];
    assert all[j + 1..] == [all[j + 1]] + all[j + 2..];
    assert Order(all, j)[1..] == all[j + 2..] + all[..j];
  }

  lemma TurnHolds(s: State, t: State, ks: seq<Key>, k: Key, b: Buf)
    requires Holds(s, ks) && ks != [] && k !in ks && ks[0] !in ks[1..] && t == Insert(EvictOldest(s), k, b).(calls := t.calls)
    ensures Holds(t, ks[1..] + [k])
    ensures ks[0] in s.cache && t.releasing == s.releasing + {s.cache[ks[0]]}
    ensures forall x :: x in ks[1..] ==> x in s.cache && x in t.cache && t.cache[x] == s.cache[x]
  {
    assert ks[0] in ks && ks == [ks[0]] + ks[1..];
  }

  /** Adding a loaded leaf to a full cache. */
  lemma AddNew(cfg: Config, s: State, id: nat, key: Key, ks: seq<Key>) returns (t: State)
    requires Reachable(cfg, s) && Calm(s) && key in Live(cfg) && IsAt(s, id, Reads(cfg, key, 0, [], Adding(id)))
    requires Holds(s, ks) && |ks| == cfg.capacity && key !in ks && ks[0] !in ks[1..]
    ensures Reachable(cfg, t) && Calm(t) && Holds(t, ks[1..] + [key]) && t.free == s.free && t.mem == s.mem
    ensures ks[0] in s.cache && t.releasing == s.releasing + {s.cache[ks[0]]}
    ensures forall x :: x in ks[1..] ==> x in s.cache && x in t.cache && t.cache[x] == s.cache[x]
    ensures forall i :: i in s.calls && i != id ==> IsAt(t, i, s.calls[i])
  {
    var s1 := s.(calls := s.calls[id := Advance(s.calls[id])]);
    t := Insert(EvictOldest(s1), key, id);
    Take(cfg, s, Add(id), t);
    TurnHolds(s, t, ks, key, id);
    assert t.calls[id].phase == Finished;
  }

  /** Adding it evicts the next one. */
  lemma RollOne(cfg: Config, s: State, all: seq<Key>, k3: Key, len: nat, j: nat) returns (t: State)
    requires Crowd(cfg, all) && k3 in Live(cfg) && j < cfg.capacity && Rolled(cfg, s, all, k3, len, j)
    ensures Rolled(cfg, t, all, k3, len, j + 1)
  {
    var n, ks := cfg.capacity, Order(all, j);
    assert Pending(cfg, s, all, j);
    Turn(cfg, all, j);
    t := AddNew(cfg, s, 2 * j + 1, all[j], ks);
    StillWaiting(cfg, s, t, all, k3, j, j + 1, n);
    if j + 1 < n { assert ks[1..][n - j - 2] == all[n]; }
  }

  lemma {:induction false} Roll(cfg: Config, s: State, all: seq<Key>, k3: Key, len: nat, j: nat) returns (t: State)
    requires Crowd(cfg, all) && k3 in Live(cfg) && j <= cfg.capacity && Rolled(cfg, s, all, k3, len, 0)
    ensures Rolled(cfg, t, all, k3, len, j)
    decreases j
  {
    t := s;
    if j > 0 {
      t := Roll(cfg, s, all, k3, len, j - 1);
      t := RollOne(cfg, t, all, k3, len, j - 1);
    }
  }

  lemma {:induction false} ListOf(a: set<Key>, n: nat) returns (ks: seq<Key>)
    requires n <= |a|
    ensures |ks| == n && Unique(ks) && forall k :: k in ks ==> k in a
  {
    ks := [];
    if n > 0 {
      var x :| x in a;
      ks := ListOf(a - {x}, n - 1);
      ks := ks + [x];
    }
  }

  /** The buffer a call has found is on the free list, and another call, whose lookup has failed, can claim it. */
  ghost predicate Robbed(cfg: Config, s: State, k1: Key, k3: Key, len: nat, id: nat, b: Buf)
    requires {k1, k3} <= Live(cfg)
  {
    && Reachable(cfg, s) && Calm(s) && s.free == [b] && id != 0
    && IsAt(s, 0, Reads(cfg, k3, 0, [], Missed)) && IsAt(s, id, Reads(cfg, k1, len, [], Found(b)))
  }

  lemma CrowdAround(cfg: Config, k1: Key) returns (all: seq<Key>)
    requires |Live(cfg)| > cfg.capacity && k1 in Live(cfg)
    ensures Crowd(cfg, all) && all[cfg.capacity] == k1
  {
    var ks := ListOf(Live(cfg) - {k1}, cfg.capacity);
    all := ks + [k1];
    forall i | 0 <= i < |all| ensures all[i] in Live(cfg) { assert i < |ks| ==> ks[i] in ks; }
    assert forall i :: 0 <= i < |ks| ==> ks[i] in ks;
  }

  lemma RollAll(cfg: Config, all: seq<Key>, k3: Key, len: nat) returns (s: State)
    requires Crowd(cfg, all) && k3 in Live(cfg)
    ensures Rolled(cfg, s, all, k3, len, cfg.capacity)
  {
    s := Stage(cfg, all, k3, cfg.capacity);
    s := StoreLast(cfg, s, all, k3);
    s := FindLast(cfg, s, all, k3, len);
    s := Roll(cfg, s, all, k3, len, cfg.capacity);
  }

  lemma ReleaseLast(cfg: Config, s: State, all: seq<Key>, k3: Key, len: nat) returns (t: State)
    requires Crowd(cfg, all) && k3 in Live(cfg) && Rolled(cfg, s, all, k3, len, cfg.capacity)
    ensures Robbed(cfg, t, all[cfg.capacity], k3, len, 2 * cfg.capacity + 1, 2 * cfg.capacity)
  {
    var b := 2 * cfg.capacity;
    t := s.(free := [b], releasing := s.releasing - {b});
    Take(cfg, s, Release(b), t);
  }

  /** With more leaves than slots, it can happen to any leaf, and for any call. */
  lemma Rob(cfg: Config, k1: Key, k3: Key, len: nat) returns (s: State, id: nat, b: Buf)
    requires |Live(cfg)| > cfg.capacity && {k1, k3} <= Live(cfg)
    ensures Robbed(cfg, s, k1, k3, len, id, b)
  {
    var all := CrowdAround(cfg, k1);
    s := RollAll(cfg, all, k3, len);
    s := ReleaseLast(cfg, s, all, k3, len);
    id, b := 2 * cfg.capacity + 1, 2 * cfg.capacity;
  }

  // ---------------------------------------------------------------- exactly when

  /** The call is over and has not got what it asked for. */
  ghost predicate WrongAt(s: State, id: nat) {
    id in s.calls && s.calls[id].phase == Finished && !Copied(s.calls[id].file.content, s.calls[id].off, s.calls[id].got, s.calls[id].len)
  }

  ghost predicate AlwaysRight(cfg: Config) {
    forall steps, id | IsRun(cfg, steps) :: !WrongAt(After(cfg, steps), id)
  }

  /** The call that found a buffer pins it, and copies what is there. */
  lemma CopyFound(cfg: Config, s: State, k1: Key, len: nat, id: nat, b: Buf, there: seq<Byte>) returns (t: State)
    requires Reachable(cfg, s) && k1 in Live(cfg) && IsAt(s, id, Reads(cfg, k1, len, [], Found(b)))
    requires b in s.mem && s.mem[b] == there && !Pinned(s, b) && |there| < len
    ensures Reachable(cfg, t) && id in t.calls && t.calls[id] == Reads(cfg, k1, len, there, Finished).(index := 1)
  {
    var s1 := SetPhase(s, id, Reading(b, false));
    Take(cfg, s, Pin(id), s1);
    CopyRun(cfg, s1, id, k1, len, b, false, there);
    assert there[..|there|] == there;
    t := s1.(calls := s1.calls[id := Advance(Reads(cfg, k1, len, there, Reading(b, false)))]);
  }

  /** With more leaves than slots, a call can return nothing of a file that is not empty. */
  lemma CrowdedIsWrong(cfg: Config)
    requires |Live(cfg)| > cfg.capacity
    ensures !AlwaysRight(cfg)
  {
    var k :| k in Live(cfg);
    var s, id, b := Rob(cfg, k, k, 1);
    ClaimRun(cfg, s, 0, k, b);
    var s1 := With(s, 0, Reads(cfg, k, 0, [], Claimed(b)), b, []);
    var t := CopyFound(cfg, s1, k, 1, id, b, []);
    assert WrongAt(t, id);
    var bad :| IsRun(cfg, bad) && After(cfg, bad) == t;
    assert WrongAt(After(cfg, bad), id);
  }

  lemma RoomyIsSafe(cfg: Config)
    requires |Live(cfg)| <= cfg.capacity
    ensures AlwaysSafe(cfg)
  {
    forall steps | IsRun(cfg, steps) ensures Safe(cfg, After(cfg, steps)) {
      var roles := RoomyRun(cfg, steps);
      InvIsSafe(cfg, After(cfg, steps), roles);
    }
  }

  lemma SafeIsRight(cfg: Config)
    requires AlwaysSafe(cfg)
    ensures AlwaysRight(cfg)
  {
    forall steps, id | IsRun(cfg, steps) ensures !WrongAt(After(cfg, steps), id) {
      assert Safe(cfg, After(cfg, steps));
    }
  }

  /** Every run of every number of calls is safe exactly if the cache has a slot for every leaf there is,
      and so is every call's result right in every run. */
  lemma SafeIffRoomy(cfg: Config)
    ensures AlwaysSafe(cfg) <==> |Live(cfg)| <= cfg.capacity
    ensures AlwaysRight(cfg) <==> |Live(cfg)| <= cfg.capacity
  {
    if |Live(cfg)| <= cfg.capacity {
      RoomyIsSafe(cfg);
      SafeIsRight(cfg);
    } else {
      CrowdedIsWrong(cfg);
      if AlwaysSafe(cfg) { SafeIsRight(cfg); }
    }
  }

  /** With more leaves than slots, a call for any leaf can return the bytes of any other as those of its own file. */
  lemma WrongBytes(cfg: Config, k1: Key, k3: Key) returns (s: State, id: nat)
    requires |Live(cfg)| > cfg.capacity && {k1, k3} <= Live(cfg) && cfg.blobs[k1] != cfg.blobs[k3]
    ensures Reachable(cfg, s) && WrongAt(s, id) && s.calls[id].file == One(cfg, k1) && s.calls[id].got == cfg.blobs[k3]
  {
    var mine, theirs := cfg.blobs[k1], cfg.blobs[k3];
    var len, b := |mine| + |theirs|, 0;
    s, id, b := Rob(cfg, k1, k3, len);
    FetchRun(cfg, s, 0, k3, b);
    var s1 := With(s, 0, Reads(cfg, k3, 0, [], Adding(b)), b, theirs);
    assert !Pinned(s1, b);
    s := CopyFound(cfg, s1, k1, len, id, b, theirs);
    assert mine[0 .. |mine|] == mine;
  }
}
