/** Concurrent random-access reads that share a cache of leaf buffers and a free list.

    Each call pins the buffer it copies from. A buffer that leaves the cache is handed to an asynchronous
    release, which waits for the pin before it puts the buffer on the free list. */
module LeafCache {
  import opened Chunking
  import opened Cafs
  import opened CafsReadAt

  type Buf = nat

  /** What all readers share: the store, the size of leaves, that of the cache (which cannot be 0), and that of the free list. */
  datatype Settings = Settings(blobs: Blobs, leafSize: nat, capacity: nat, watermark: nat)

  type Config = c: Settings | c.leafSize > 0 && c.capacity > 0 witness Settings(map[], 1, 1, 0)

  /** A file: its content, and keys under which the store has its leaves. */
  datatype Stream = Stream(content: seq<Byte>, keys: seq<Key>) {
    ghost predicate Ok(cfg: Config) {
      var leaves := Chunks(content, cfg.leafSize);
      && |keys| == |leaves|
      && forall i: nat :: i < |keys| ==> keys[i] in cfg.blobs && cfg.blobs[keys[i]] == leaves[i]
    }
  }

  datatype Phase =
    | Looking
    | Found(buf: Buf)                  // in the cache, not pinned yet
    | Missed
    | Claimed(buf: Buf)                // a buffer of its own, not yet checked to be clean
    | Filling(buf: Buf)                // its own, pinned, being read from the store
    | Reading(buf: Buf, mine: bool)    // pinned, holding the leaf
    | Adding(buf: Buf)                 // its own, unpinned, to be added to the cache
    | Finished
    | Broken
    | Dirty                            // claimed a buffer that was not clean
  {
    predicate HasBuf() { Found? || Claimed? || Filling? || Reading? || Adding? }
  }

  /** A ReadAt call for `len` bytes at `off`; the next bytes come from leaf `index`, at `offset`. */
  datatype Call = Call(file: Stream, off: nat, len: nat, index: nat, offset: nat, got: seq<Byte>, phase: Phase)

  /** `recent` has the keys of the cache, the least recently used first; `dropped` is history: the buffers that were
      not put on the free list because it was full. */
  datatype State = State(
    calls: map<nat, Call>, mem: map<Buf, seq<Byte>>, cache: map<Key, Buf>, recent: seq<Key>, free: seq<Buf>, releasing: set<Buf>,
    dropped: set<Buf>)

  const Init: State := State(map[], map[], map[], [], [], {}, {})

  function NewCall(cfg: Config, file: Stream, off: nat, len: nat): (c: Call) {
    var index := off / cfg.leafSize;
    Call(file, off, len, index, off % cfg.leafSize, [], if index >= |file.keys| then Finished else Looking)
  }

  datatype Step =
    | Start(id: nat, file: Stream, off: nat, len: nat)
    | LookUp(id: nat)
    | Pin(id: nat)
    | Get(id: nat, extra: Buf)
    | CheckClean(id: nat)
    | Fill(id: nat, n: nat)
    | Fail(id: nat)
    | Copy(id: nat)
    | Add(id: nat)
    | Release(buf: Buf)

  predicate Pins(c: Call, b: Buf) {
    c.phase == Filling(b) || (c.phase.Reading? && c.phase.buf == b)
  }

  predicate Pinned(s: State, b: Buf) { exists id :: id in s.calls && Pins(s.calls[id], b) }

  predicate At(s: State, id: nat) {
    id in s.calls && s.calls[id].index < |s.calls[id].file.keys|
  }

  function KeyOf(s: State, id: nat): (k: Key)
    requires At(s, id)
  {
    s.calls[id].file.keys[s.calls[id].index]
  }

  /** A call holds the latch from its lookup to its pin, if it finds its leaf. */
  predicate Latched(s: State) { exists id :: id in s.calls && s.calls[id].phase.Found? }

  ghost predicate Enabled(cfg: Config, s: State, step: Step) {
    match step
    case Start(id, file, off, len) => id !in s.calls && file.Ok(cfg) && off <= |file.content|
    case LookUp(id) => At(s, id) && s.calls[id].phase == Looking && !Latched(s)
    case Pin(id) => At(s, id) && s.calls[id].phase.Found? && !Pinned(s, s.calls[id].phase.buf)
    case Get(id, b) => At(s, id) && s.calls[id].phase == Missed && (s.free == [] ==> b !in s.mem)
    case CheckClean(id) =>
      At(s, id) && s.calls[id].phase.Claimed? && s.calls[id].phase.buf in s.mem && !Pinned(s, s.calls[id].phase.buf)
    case Fill(id, n) =>
      && At(s, id) && s.calls[id].phase.Filling? && s.calls[id].phase.buf in s.mem && KeyOf(s, id) in cfg.blobs
      && |s.mem[s.calls[id].phase.buf]| + n <= |cfg.blobs[KeyOf(s, id)]|
    case Fail(id) => At(s, id) && s.calls[id].phase.Filling?
    case Copy(id) =>
      && At(s, id) && s.calls[id].phase.Reading? && s.calls[id].phase.buf in s.mem
      && s.calls[id].offset <= |s.mem[s.calls[id].phase.buf]|
      && |s.calls[id].got| <= s.calls[id].len
    case Add(id) => At(s, id) && s.calls[id].phase.Adding?
    case Release(b) => b in s.releasing && !Pinned(s, b)
  }

  function SetPhase(s: State, id: nat, phase: Phase): (s': State)
    requires id in s.calls
  {
    s.(calls := s.calls[id := s.calls[id].(phase := phase)])
  }

  /** On to the next leaf, unless the request is met or the leaves are used up. */
  function Advance(c: Call): (c': Call) {
    if |c.got| == c.len || c.index + 1 >= |c.file.keys| then c.(index := c.index + 1, offset := 0, phase := Finished)
    else c.(index := c.index + 1, offset := 0, phase := Looking)
  }

  function CopyOut(c: Call, leaf: seq<Byte>): (c': Call)
    requires c.offset <= |leaf| && |c.got| <= c.len
  {
    var room, there := c.len - |c.got|, |leaf| - c.offset;
    var n := if there < room then there else room;
    c.(got := c.got + leaf[c.offset .. c.offset + n])
  }

  /** What a call becomes when it has copied its part of a leaf. */
  function AfterCopy(c: Call, leaf: seq<Byte>): (c': Call)
    requires c.offset <= |leaf| && |c.got| <= c.len && c.phase.Reading?
  {
    var d := CopyOut(c, leaf);
    if c.phase.mine then d.(phase := Adding(c.phase.buf)) else Advance(d)
  }

  function Without(ks: seq<Key>, k: Key): (r: seq<Key>) {
    if ks == [] then [] else (if ks[0] == k then [] else [ks[0]]) + Without(ks[1..], k)
  }

  /** The least recently used leaf leaves the cache. */
  function EvictOldest(s: State): (s': State)
    requires s.recent != []
  {
    var k := s.recent[0];
    s.(cache := s.cache - {k}, recent := s.recent[1..], releasing := s.releasing + if k in s.cache then {s.cache[k]} else {})
  }

  /** A leaf enters the cache as the most recently used. */
  function Insert(s: State, k: Key, b: Buf): (s': State) {
    s.(cache := s.cache[k := b], recent := s.recent + [k])
  }

  ghost function Next(cfg: Config, s: State, step: Step): (s': State)
    requires Enabled(cfg, s, step)
  {
    match step
    case Start(id, file, off, len) => s.(calls := s.calls[id := NewCall(cfg, file, off, len)])
    case LookUp(id) =>
      var k := KeyOf(s, id);
      if k in s.cache then SetPhase(s, id, Found(s.cache[k])).(recent := Without(s.recent, k) + [k]) else SetPhase(s, id, Missed)
    case Pin(id) => SetPhase(s, id, Reading(s.calls[id].phase.buf, false))
    case Get(id, extra) =>
      if s.free == [] then SetPhase(s, id, Claimed(extra)).(mem := s.mem[extra := []])
      else
        var b := s.free[|s.free| - 1];
        SetPhase(s, id, Claimed(b)).(mem := s.mem[b := []], free := s.free[..|s.free| - 1])
    case CheckClean(id) =>
      var b := s.calls[id].phase.buf;
      SetPhase(s, id, if |s.mem[b]| > 0 then Dirty else Filling(b))
    case Fill(id, n) =>
      var b, blob := s.calls[id].phase.buf, cfg.blobs[KeyOf(s, id)];
      var more := s.mem[b] + blob[|s.mem[b]| .. |s.mem[b]| + n];
      SetPhase(s, id, if |more| == |blob| then Reading(b, true) else Filling(b)).(mem := s.mem[b := more])
    case Fail(id) =>
      SetPhase(s, id, Broken).(releasing := s.releasing + {s.calls[id].phase.buf})
    case Copy(id) =>
      s.(calls := s.calls[id := AfterCopy(s.calls[id], s.mem[s.calls[id].phase.buf])])
    case Add(id) =>
      var b, k := s.calls[id].phase.buf, KeyOf(s, id);
      var s1 := s.(calls := s.calls[id := Advance(s.calls[id])]);
      if k in s.cache then s1.(releasing := s.releasing + {b})
      else if |s.recent| >= cfg.capacity then Insert(EvictOldest(s1), k, b)
      else Insert(s1, k, b)
    case Release(b) =>
      if |s.free| > cfg.watermark then s.(releasing := s.releasing - {b}, dropped := s.dropped + {b})
      else s.(releasing := s.releasing - {b}, free := s.free + [b])
  }

  /** The step puts a buffer on the free list that some call has found and not pinned yet. */
  ghost predicate Disturbs(cfg: Config, s: State, step: Step) {
    step.Release? && |s.free| <= cfg.watermark && exists id :: id in s.calls && s.calls[id].phase == Found(step.buf)
  }

  // ---------------------------------------------------------------- invariant

  /** Where a buffer is: it is in one place only. */
  datatype Role = Cached(key: Key) | Free(at: nat) | Releasing | Owned(id: nat) | Dropped

  predicate Has(roles: map<Buf, Role>, b: Buf, role: Role) { b in roles && roles[b] == role }

  /** A buffer others may still read: in the cache, or out of it and not reused. */
  predicate Readable(role: Role) { role.Cached? || role.Releasing? || role.Dropped? }

  ghost predicate OnCourse(cfg: Config, c: Call) {
    var n, L := |c.file.keys|, cfg.leafSize;
    && c.file.Ok(cfg) && c.off <= |c.file.content| && |c.got| <= c.len
    && c.off + |c.got| <= |c.file.content|
    && c.got == c.file.content[c.off .. c.off + |c.got|]
    && (c.phase == Finished ==> |c.got| == c.len || c.off + |c.got| == |c.file.content|)
    && (c.phase != Finished ==> c.index < n && c.offset <= L)
    && (c.phase != Finished && c.phase != Broken && !c.phase.Adding? ==> c.index * L + c.offset == c.off + |c.got|)
    && (c.phase.Adding? ==> |c.got| == c.len || c.off + |c.got| == Bound(c.file.content, L, c.index + 1))
  }

  /** What the phase of a call says about its buffer. */
  ghost predicate BufferOk(cfg: Config, s: State, roles: map<Buf, Role>, id: nat)
    requires id in s.calls && OnCourse(cfg, s.calls[id])
  {
    var c := s.calls[id];
    if c.phase == Finished then true
    else
      var k := c.file.keys[c.index];
      match c.phase
      case Found(b) => b in roles && Readable(roles[b]) && b in s.mem && s.mem[b] == cfg.blobs[k]
      case Claimed(b) => Has(roles, b, Owned(id)) && b in s.mem && s.mem[b] == []
      case Filling(b) => Has(roles, b, Owned(id)) && b in s.mem && s.mem[b] <= cfg.blobs[k]
      case Reading(b, mine) =>
        && b in roles && (if mine then roles[b] == Owned(id) else Readable(roles[b]))
        && b in s.mem && s.mem[b] == cfg.blobs[k]
      case Adding(b) => Has(roles, b, Owned(id)) && b in s.mem && s.mem[b] == cfg.blobs[k]
      case Dirty => false
      case _ => true
  }

  ghost predicate CallOk(cfg: Config, s: State, roles: map<Buf, Role>, id: nat)
    requires id in s.calls
  {
    OnCourse(cfg, s.calls[id]) && BufferOk(cfg, s, roles, id)
  }

  ghost predicate CacheOk(cfg: Config, s: State, roles: map<Buf, Role>, k: Key)
    requires k in s.cache
  {
    var b := s.cache[k];
    Has(roles, b, Cached(k)) && b in s.mem && k in cfg.blobs && s.mem[b] == cfg.blobs[k]
  }

  ghost predicate Unique(ks: seq<Key>) { forall i, j :: 0 <= i < j < |ks| ==> ks[i] != ks[j] }

  /** The order of use lists the keys of the cache, each once. */
  ghost predicate RecentOk(s: State) {
    && (forall k :: k in s.recent <==> k in s.cache)
    && Unique(s.recent)
  }

  /** The buffers outside the calls. */
  ghost predicate SharedOk(cfg: Config, s: State, roles: map<Buf, Role>) {
    && RecentOk(s)
    && (forall k :: k in s.cache ==> CacheOk(cfg, s, roles, k))
    && (forall b :: b in roles && roles[b].Cached? ==> roles[b].key in s.cache && s.cache[roles[b].key] == b)
    && (forall i: nat :: i < |s.free| ==> Has(roles, s.free[i], Free(i)))
    && (forall b :: b in s.releasing ==> Has(roles, b, Releasing))
    && |s.free| <= cfg.watermark + 1
    && roles.Keys == s.mem.Keys
  }

  ghost predicate Inv(cfg: Config, s: State, roles: map<Buf, Role>) {
    SharedOk(cfg, s, roles) && forall id :: id in s.calls ==> CallOk(cfg, s, roles, id)
  }

  // ---------------------------------------------------------------- every step keeps it

  ghost predicate Uses(c: Call, b: Buf) {
    c.phase.HasBuf() && c.phase.buf == b
  }

  /** Nothing happens to the buffer that matters to a call using it. */
  ghost predicate Stays(s: State, roles: map<Buf, Role>, s': State, roles': map<Buf, Role>, c: Call, b: Buf) {
    && b in roles && b in roles' && b in s.mem && b in s'.mem && s'.mem[b] == s.mem[b]
    && (roles'[b] == roles[b] || ((c.phase.Found? || (c.phase.Reading? && !c.phase.mine)) && Readable(roles'[b])))
  }

  lemma Untouched(cfg: Config, s: State, roles: map<Buf, Role>, s': State, roles': map<Buf, Role>, id: nat)
    requires id in s.calls && CallOk(cfg, s, roles, id) && id in s'.calls && s'.calls[id] == s.calls[id]
    requires forall b :: Uses(s.calls[id], b) ==> Stays(s, roles, s', roles', s.calls[id], b)
    ensures CallOk(cfg, s', roles', id)
  {
    var c := s.calls[id];
    if c.phase.HasBuf() { assert Uses(c, c.phase.buf); }
  }

  /** The first position of a request. */
  lemma StartOnCourse(cfg: Config, file: Stream, off: nat, len: nat)
    requires file.Ok(cfg) && off <= |file.content|
    ensures OnCourse(cfg, NewCall(cfg, file, off, len))
  {
    ChunkCount(file.content, cfg.leafSize);
    OffsetSplit(off, cfg.leafSize);
    SlotOrder(off, cfg.leafSize, |file.keys|);
  }

  lemma OffsetInLeaf(cfg: Config, c: Call)
    requires OnCourse(cfg, c) && c.phase.Reading?
    ensures c.index * cfg.leafSize + |cfg.blobs[c.file.keys[c.index]]| == Bound(c.file.content, cfg.leafSize, c.index + 1)
    ensures cfg.blobs[c.file.keys[c.index]] == c.file.content[c.index * cfg.leafSize .. Bound(c.file.content, cfg.leafSize, c.index + 1)]
    ensures c.offset <= |cfg.blobs[c.file.keys[c.index]]|
  {
    var L := cfg.leafSize;
    LeafSlice(c.file.content, L, c.index);
    assert (c.index + 1) * L == c.index * L + L;
  }

  lemma WindowGrows(s: seq<Byte>, off: nat, got: seq<Byte>, start: nat, end: nat, offset: nat, n: nat)
    requires start <= end <= |s| && offset + n <= end - start && start + offset == off + |got|
    requires got == s[off .. off + |got|]
    ensures got + s[start..end][offset .. offset + n] == s[off .. off + |got| + n]
  {
    SliceOfSlice(s, start, end, offset, n);
    JoinSlices(s, off, off + |got|, off + |got| + n);
  }

  lemma CopyOnCourse(cfg: Config, c: Call)
    requires OnCourse(cfg, c) && c.phase.Reading?
    ensures c.offset <= |cfg.blobs[c.file.keys[c.index]]|
    ensures OnCourse(cfg, CopyOut(c, cfg.blobs[c.file.keys[c.index]]).(phase := Adding(c.phase.buf)))
  {
    OffsetInLeaf(cfg, c);
    var s, L, leaf := c.file.content, cfg.leafSize, cfg.blobs[c.file.keys[c.index]];
    var c' := CopyOut(c, leaf);
    WindowGrows(s, c.off, c.got, c.index * L, Bound(s, L, c.index + 1), c.offset, |c'.got| - |c.got|);
  }

  lemma AdvanceOnCourse(cfg: Config, c: Call)
    requires OnCourse(cfg, c) && c.phase.Adding?
    ensures OnCourse(cfg, Advance(c))
  {
    var s, L := c.file.content, cfg.leafSize;
    LastBound(s, L);
    LeafSlice(s, L, c.index);
    if c.index + 1 < |c.file.keys| { LeafSlice(s, L, c.index + 1); }
  }

  /** Every call but one uses buffers that stay. */
  lemma OthersKeep(cfg: Config, s: State, roles: map<Buf, Role>, s': State, roles': map<Buf, Role>, me: nat)
    requires Inv(cfg, s, roles) && SharedOk(cfg, s', roles')
    requires me in s'.calls && CallOk(cfg, s', roles', me)
    requires forall id :: id in s'.calls && id != me ==> id in s.calls && s'.calls[id] == s.calls[id]
    requires forall id, b :: id in s.calls && id != me && Uses(s.calls[id], b) ==> Stays(s, roles, s', roles', s.calls[id], b)
    ensures Inv(cfg, s', roles')
  {
    forall id | id in s'.calls ensures CallOk(cfg, s', roles', id) {
      if id != me { Untouched(cfg, s, roles, s', roles', id); }
    }
  }

  /** A buffer in use is a buffer in memory, and belongs to nobody else. */
  lemma UsedBy(cfg: Config, s: State, roles: map<Buf, Role>, id: nat, b: Buf)
    requires Inv(cfg, s, roles) && id in s.calls && Uses(s.calls[id], b)
    ensures b in roles && b in s.mem
    ensures roles[b] == Owned(id) ||
      (Readable(roles[b]) && (s.calls[id].phase.Found? || (s.calls[id].phase.Reading? && !s.calls[id].phase.mine)))
  {
    assert CallOk(cfg, s, roles, id);
  }

  /** A step that changes one call and no buffer. */
  lemma CallChanges(cfg: Config, s: State, roles: map<Buf, Role>, id: nat, c: Call)
    requires Inv(cfg, s, roles) && CallOk(cfg, s.(calls := s.calls[id := c]), roles, id)
    ensures Inv(cfg, s.(calls := s.calls[id := c]), roles)
  {
    var s' := s.(calls := s.calls[id := c]);
    forall k | k in s'.cache ensures CacheOk(cfg, s', roles, k) { assert CacheOk(cfg, s, roles, k); }
    forall i, b | i in s.calls && i != id && Uses(s.calls[i], b) ensures Stays(s, roles, s', roles, s.calls[i], b) {
      UsedBy(cfg, s, roles, i, b);
    }
    OthersKeep(cfg, s, roles, s', roles, id);
  }

  lemma StartKeeps(cfg: Config, s: State, roles: map<Buf, Role>, step: Step)
    requires Inv(cfg, s, roles) && Enabled(cfg, s, step) && step.Start?
    ensures Inv(cfg, Next(cfg, s, step), roles)
  {
    StartOnCourse(cfg, step.file, step.off, step.len);
    CallChanges(cfg, s, roles, step.id, NewCall(cfg, step.file, step.off, step.len));
  }

  lemma {:induction false} WithoutKey(ks: seq<Key>, k: Key)
    requires Unique(ks)
    ensures k !in Without(ks, k) && forall x :: x != k ==> (x in Without(ks, k) <==> x in ks)
    ensures Unique(Without(ks, k))
  {
    if ks != [] {
      WithoutKey(ks[1..], k);
      assert ks == [ks[0]] + ks[1..];
      assert ks[0] !in ks[1..];
    }
  }

  /** Using a leaf changes the order of use, and nothing else. */
  lemma Reorder(cfg: Config, s: State, roles: map<Buf, Role>, k: Key)
    requires Inv(cfg, s, roles) && k in s.cache
    ensures Inv(cfg, s.(recent := Without(s.recent, k) + [k]), roles)
  {
    var s' := s.(recent := Without(s.recent, k) + [k]);
    WithoutKey(s.recent, k);
    assert RecentOk(s');
    forall x | x in s'.cache ensures CacheOk(cfg, s', roles, x) { assert CacheOk(cfg, s, roles, x); }
    forall i | i in s'.calls ensures CallOk(cfg, s', roles, i) { assert CallOk(cfg, s, roles, i); }
  }

  lemma LookUpKeeps(cfg: Config, s: State, roles: map<Buf, Role>, step: Step)
    requires Inv(cfg, s, roles) && Enabled(cfg, s, step) && step.LookUp?
    ensures Inv(cfg, Next(cfg, s, step), roles)
  {
    assert CallOk(cfg, s, roles, step.id);
    var s' := Next(cfg, s, step);
    if KeyOf(s, step.id) in s.cache { assert CacheOk(cfg, s, roles, KeyOf(s, step.id)); }
    CallChanges(cfg, s, roles, step.id, s'.calls[step.id]);
    if KeyOf(s, step.id) in s.cache {
      Reorder(cfg, s.(calls := s'.calls), roles, KeyOf(s, step.id));
    }
  }

  lemma PinKeeps(cfg: Config, s: State, roles: map<Buf, Role>, step: Step)
    requires Inv(cfg, s, roles) && Enabled(cfg, s, step) && step.Pin?
    ensures Inv(cfg, Next(cfg, s, step), roles)
  {
    assert CallOk(cfg, s, roles, step.id);
    CallChanges(cfg, s, roles, step.id, Next(cfg, s, step).calls[step.id]);
  }

  lemma CheckCleanKeeps(cfg: Config, s: State, roles: map<Buf, Role>, step: Step)
    requires Inv(cfg, s, roles) && Enabled(cfg, s, step) && step.CheckClean?
    ensures Inv(cfg, Next(cfg, s, step), roles)
  {
    assert CallOk(cfg, s, roles, step.id);
    CallChanges(cfg, s, roles, step.id, Next(cfg, s, step).calls[step.id]);
  }

  lemma AfterCopyOnCourse(cfg: Config, c: Call)
    requires OnCourse(cfg, c) && c.phase.Reading?
    ensures c.offset <= |cfg.blobs[c.file.keys[c.index]]|
    ensures OnCourse(cfg, AfterCopy(c, cfg.blobs[c.file.keys[c.index]]))
  {
    CopyOnCourse(cfg, c);
    var d := CopyOut(c, cfg.blobs[c.file.keys[c.index]]).(phase := Adding(c.phase.buf));
    AdvanceOnCourse(cfg, d);
  }

  lemma AfterCopyPhase(c: Call, leaf: seq<Byte>)
    requires c.offset <= |leaf| && |c.got| <= c.len && c.phase.Reading?
    ensures var c' := AfterCopy(c, leaf);
      c'.file == c.file && if c.phase.mine then c'.index == c.index && c'.phase == Adding(c.phase.buf) else c'.phase in {Looking, Finished}
  {
  }

  lemma CopyKeeps(cfg: Config, s: State, roles: map<Buf, Role>, step: Step)
    requires Inv(cfg, s, roles) && Enabled(cfg, s, step) && step.Copy?
    ensures Inv(cfg, Next(cfg, s, step), roles)
  {
    var c := s.calls[step.id];
    assert CallOk(cfg, s, roles, step.id);
    AfterCopyOnCourse(cfg, c);
    var c' := AfterCopy(c, s.mem[c.phase.buf]);
    AfterCopyPhase(c, s.mem[c.phase.buf]);
    assert CallOk(cfg, s.(calls := s.calls[step.id := c']), roles, step.id);
    CallChanges(cfg, s, roles, step.id, c');
  }

  lemma ClaimShared(cfg: Config, s: State, roles: map<Buf, Role>, id: nat, got: Buf, free: seq<Buf>)
    requires SharedOk(cfg, s, roles) && At(s, id)
    requires (got !in roles && free == s.free) || (s.free == free + [got] && Has(roles, got, Free(|free|)))
    ensures SharedOk(cfg, SetPhase(s, id, Claimed(got)).(mem := s.mem[got := []], free := free), roles[got := Owned(id)])
  {
    var s', roles' := SetPhase(s, id, Claimed(got)).(mem := s.mem[got := []], free := free), roles[got := Owned(id)];
    forall k | k in s'.cache ensures CacheOk(cfg, s', roles', k) { assert CacheOk(cfg, s, roles, k); }
    forall i: nat | i < |free| ensures Has(roles', free[i], Free(i)) {
      assert free[i] == s.free[i];
      assert Has(roles, s.free[i], Free(i));
    }
  }

  /** A buffer that is free, or new, becomes the call's own. */
  lemma ClaimKeeps(cfg: Config, s: State, roles: map<Buf, Role>, id: nat, got: Buf, free: seq<Buf>)
    requires Inv(cfg, s, roles) && At(s, id) && s.calls[id].phase == Missed
    requires (got !in roles && free == s.free) || s.free == free + [got]
    ensures Inv(cfg, SetPhase(s, id, Claimed(got)).(mem := s.mem[got := []], free := free), roles[got := Owned(id)])
  {
    assert CallOk(cfg, s, roles, id);
    var s', roles' := SetPhase(s, id, Claimed(got)).(mem := s.mem[got := []], free := free), roles[got := Owned(id)];
    if got in roles { assert s.free[|free|] == got; assert Has(roles, got, Free(|free|)); }
    ClaimShared(cfg, s, roles, id, got, free);
    forall i, b | i in s.calls && i != id && Uses(s.calls[i], b) ensures Stays(s, roles, s', roles', s.calls[i], b) {
      UsedBy(cfg, s, roles, i, b);
    }
    assert CallOk(cfg, s', roles', id);
    OthersKeep(cfg, s, roles, s', roles', id);
  }

  lemma GetKeeps(cfg: Config, s: State, roles: map<Buf, Role>, step: Step) returns (roles': map<Buf, Role>)
    requires Inv(cfg, s, roles) && Enabled(cfg, s, step) && step.Get?
    ensures Inv(cfg, Next(cfg, s, step), roles')
  {
    var n := |s.free| - 1;
    var got := if s.free == [] then step.extra else s.free[n];
    roles' := roles[got := Owned(step.id)];
    ClaimKeeps(cfg, s, roles, step.id, got, if s.free == [] then s.free else s.free[..n]);
  }

  lemma FillKeeps(cfg: Config, s: State, roles: map<Buf, Role>, step: Step)
    requires Inv(cfg, s, roles) && Enabled(cfg, s, step) && step.Fill?
    ensures Inv(cfg, Next(cfg, s, step), roles)
  {
    assert CallOk(cfg, s, roles, step.id);
    var s', mine := Next(cfg, s, step), s.calls[step.id].phase.buf;
    var blob := cfg.blobs[KeyOf(s, step.id)];
    assert s'.mem[mine] == blob[..|s'.mem[mine]|];
    forall k | k in s'.cache ensures CacheOk(cfg, s', roles, k) { assert CacheOk(cfg, s, roles, k); }
    forall i, b | i in s.calls && i != step.id && Uses(s.calls[i], b) ensures Stays(s, roles, s', roles, s.calls[i], b) {
      UsedBy(cfg, s, roles, i, b);
    }
    assert CallOk(cfg, s', roles, step.id);
    OthersKeep(cfg, s, roles, s', roles, step.id);
  }

  /** A call's own buffer goes to its release. */
  lemma DropShared(cfg: Config, s: State, roles: map<Buf, Role>, s': State, mine: Buf)
    requires SharedOk(cfg, s, roles) && mine in roles && roles[mine].Owned?
    requires s' == s.(calls := s'.calls, releasing := s.releasing + {mine})
    ensures SharedOk(cfg, s', roles[mine := Releasing])
  {
    var roles' := roles[mine := Releasing];
    forall k | k in s'.cache ensures CacheOk(cfg, s', roles', k) { assert CacheOk(cfg, s, roles, k); }
    forall i: nat | i < |s'.free| ensures Has(roles', s'.free[i], Free(i)) { assert Has(roles, s.free[i], Free(i)); }
  }

  lemma FailKeeps(cfg: Config, s: State, roles: map<Buf, Role>, step: Step) returns (roles': map<Buf, Role>)
    requires Inv(cfg, s, roles) && Enabled(cfg, s, step) && step.Fail?
    ensures Inv(cfg, Next(cfg, s, step), roles')
  {
    assert CallOk(cfg, s, roles, step.id);
    var s', mine := Next(cfg, s, step), s.calls[step.id].phase.buf;
    roles' := roles[mine := Releasing];
    DropShared(cfg, s, roles, s', mine);
    forall i, b | i in s.calls && i != step.id && Uses(s.calls[i], b) ensures Stays(s, roles, s', roles', s.calls[i], b) {
      UsedBy(cfg, s, roles, i, b);
    }
    OthersKeep(cfg, s, roles, s', roles', step.id);
  }

  /** Only a buffer nobody pins gets on the free list, and one that nobody has found if the step does not disturb. */
  lemma ReleaseKeeps(cfg: Config, s: State, roles: map<Buf, Role>, step: Step) returns (roles': map<Buf, Role>)
    requires Inv(cfg, s, roles) && Enabled(cfg, s, step) && step.Release? && !Disturbs(cfg, s, step)
    ensures Inv(cfg, Next(cfg, s, step), roles')
  {
    var s', freed := Next(cfg, s, step), step.buf;
    roles' := roles[freed := if |s.free| > cfg.watermark then Dropped else Free(|s.free|)];
    forall k | k in s'.cache ensures CacheOk(cfg, s', roles', k) { assert CacheOk(cfg, s, roles, k); }
    forall i: nat | i < |s'.free| ensures Has(roles', s'.free[i], Free(i)) {
      if i < |s.free| { assert Has(roles, s.free[i], Free(i)); }
    }
    forall i | i in s'.calls ensures CallOk(cfg, s', roles', i) {
      forall b | Uses(s.calls[i], b) ensures Stays(s, roles, s', roles', s.calls[i], b) {
        UsedBy(cfg, s, roles, i, b);
        assert !Pins(s.calls[i], freed);
      }
      Untouched(cfg, s, roles, s', roles', i);
    }
  }

  /** The leaf is in the cache already: the call's own buffer is released. */
  lemma AddReleases(cfg: Config, s: State, roles: map<Buf, Role>, step: Step) returns (roles': map<Buf, Role>)
    requires Inv(cfg, s, roles) && Enabled(cfg, s, step) && step.Add? && KeyOf(s, step.id) in s.cache
    ensures Inv(cfg, Next(cfg, s, step), roles')
  {
    assert CallOk(cfg, s, roles, step.id);
    AdvanceOnCourse(cfg, s.calls[step.id]);
    var s', mine := Next(cfg, s, step), s.calls[step.id].phase.buf;
    roles' := roles[mine := Releasing];
    DropShared(cfg, s, roles, s', mine);
    forall i, b | i in s.calls && i != step.id && Uses(s.calls[i], b) ensures Stays(s, roles, s', roles', s.calls[i], b) {
      UsedBy(cfg, s, roles, i, b);
    }
    OthersKeep(cfg, s, roles, s', roles', step.id);
  }

  lemma InsertRecent(s: State, k: Key, b: Buf)
    requires RecentOk(s) && k !in s.cache
    ensures RecentOk(Insert(s, k, b))
  {
    assert k !in s.recent;
  }

  lemma AddShared(cfg: Config, s: State, roles: map<Buf, Role>, s': State, key: Key, mine: Buf)
    requires SharedOk(cfg, s, roles) && key !in s.cache && mine in roles && roles[mine].Owned?
    requires mine in s.mem && key in cfg.blobs && s.mem[mine] == cfg.blobs[key]
    requires s' == Insert(s, key, mine).(calls := s'.calls)
    ensures SharedOk(cfg, s', roles[mine := Cached(key)])
  {
    var roles' := roles[mine := Cached(key)];
    InsertRecent(s, key, mine);
    forall k | k in s'.cache ensures CacheOk(cfg, s', roles', k) {
      if k in s.cache { assert CacheOk(cfg, s, roles, k); }
    }
    forall i: nat | i < |s'.free| ensures Has(roles', s'.free[i], Free(i)) { assert Has(roles, s.free[i], Free(i)); }
  }

  /** The call's own buffer becomes the cached one. */
  lemma AddCaches(cfg: Config, s: State, roles: map<Buf, Role>, id: nat) returns (roles': map<Buf, Role>)
    requires Inv(cfg, s, roles) && At(s, id) && s.calls[id].phase.Adding? && KeyOf(s, id) !in s.cache
    ensures Inv(cfg, Insert(s.(calls := s.calls[id := Advance(s.calls[id])]), KeyOf(s, id), s.calls[id].phase.buf), roles')
  {
    assert CallOk(cfg, s, roles, id);
    AdvanceOnCourse(cfg, s.calls[id]);
    var key, mine := KeyOf(s, id), s.calls[id].phase.buf;
    var s' := Insert(s.(calls := s.calls[id := Advance(s.calls[id])]), key, mine);
    roles' := roles[mine := Cached(key)];
    AddShared(cfg, s, roles, s', key, mine);
    forall i, b | i in s.calls && i != id && Uses(s.calls[i], b) ensures Stays(s, roles, s', roles', s.calls[i], b) {
      UsedBy(cfg, s, roles, i, b);
    }
    OthersKeep(cfg, s, roles, s', roles', id);
  }

  lemma EvictRecent(s: State)
    requires RecentOk(s) && s.recent != []
    ensures RecentOk(EvictOldest(s))
  {
    var rest := s.recent[1..];
    assert s.recent == [s.recent[0]] + rest;
    assert s.recent[0] !in rest && Unique(rest);
  }

  lemma EvictShared(cfg: Config, s: State, roles: map<Buf, Role>)
    requires SharedOk(cfg, s, roles) && s.recent != []
    ensures s.recent[0] in s.cache && Has(roles, s.cache[s.recent[0]], Cached(s.recent[0]))
    ensures SharedOk(cfg, EvictOldest(s), roles[s.cache[s.recent[0]] := Releasing])
  {
    var victim := s.recent[0];
    assert victim in s.recent;
    var s', gone := EvictOldest(s), s.cache[victim];
    var roles' := roles[gone := Releasing];
    EvictRecent(s);
    assert CacheOk(cfg, s, roles, victim);
    forall k | k in s'.cache ensures CacheOk(cfg, s', roles', k) { assert CacheOk(cfg, s, roles, k); }
    forall i: nat | i < |s'.free| ensures Has(roles', s'.free[i], Free(i)) { assert Has(roles, s.free[i], Free(i)); }
  }

  /** An evicted buffer goes to its release, which waits for whoever pins it. */
  lemma EvictKeeps(cfg: Config, s: State, roles: map<Buf, Role>) returns (roles': map<Buf, Role>)
    requires Inv(cfg, s, roles) && s.recent != []
    ensures Inv(cfg, EvictOldest(s), roles')
  {
    EvictShared(cfg, s, roles);
    var s' := EvictOldest(s);
    roles' := roles[s.cache[s.recent[0]] := Releasing];
    forall i | i in s'.calls ensures CallOk(cfg, s', roles', i) {
      forall b | Uses(s.calls[i], b) ensures Stays(s, roles, s', roles', s.calls[i], b) {
        UsedBy(cfg, s, roles, i, b);
      }
      Untouched(cfg, s, roles, s', roles', i);
    }
  }

  lemma AddKeeps(cfg: Config, s: State, roles: map<Buf, Role>, step: Step) returns (roles': map<Buf, Role>)
    requires Inv(cfg, s, roles) && Enabled(cfg, s, step) && step.Add?
    ensures Inv(cfg, Next(cfg, s, step), roles')
  {
    if KeyOf(s, step.id) in s.cache {
      roles' := AddReleases(cfg, s, roles, step);
    } else if |s.recent| >= cfg.capacity {
      roles' := EvictKeeps(cfg, s, roles);
      roles' := AddCaches(cfg, EvictOldest(s), roles', step.id);
    } else {
      roles' := AddCaches(cfg, s, roles, step.id);
    }
  }

  lemma StepKeeps(cfg: Config, s: State, roles: map<Buf, Role>, step: Step) returns (roles': map<Buf, Role>)
    requires Inv(cfg, s, roles) && Enabled(cfg, s, step) && !Disturbs(cfg, s, step)
    ensures Inv(cfg, Next(cfg, s, step), roles')
  {
    roles' := roles;
    match step {
      case Start(_, _, _, _) => StartKeeps(cfg, s, roles, step);
      case LookUp(_) => LookUpKeeps(cfg, s, roles, step);
      case Pin(_) => PinKeeps(cfg, s, roles, step);
      case Get(_, _) => roles' := GetKeeps(cfg, s, roles, step);
      case CheckClean(_) => CheckCleanKeeps(cfg, s, roles, step);
      case Fill(_, _) => FillKeeps(cfg, s, roles, step);
      case Fail(_) => roles' := FailKeeps(cfg, s, roles, step);
      case Copy(_) => CopyKeeps(cfg, s, roles, step);
      case Add(_) => roles' := AddKeeps(cfg, s, roles, step);
      case Release(_) => roles' := ReleaseKeeps(cfg, s, roles, step);
    }
  }

  // ---------------------------------------------------------------- no buffer is lost

  ghost predicate Owns(c: Call, b: Buf) {
    c.phase == Claimed(b) || c.phase == Filling(b) || c.phase == Reading(b, true) || c.phase == Adding(b)
  }

  ghost predicate Shelved(s: State, b: Buf) { b in s.cache.Values || b in s.free || b in s.releasing || b in s.dropped }

  /** The buffer is cached, free, being released or dropped, or it is some call's own. */
  ghost predicate Tracked(s: State, b: Buf) { Shelved(s, b) || exists id :: id in s.calls && Owns(s.calls[id], b) }

  ghost predicate AllTracked(s: State) { forall b {:trigger Tracked(s, b)} :: b in s.mem ==> Tracked(s, b) }

  /** Buffers leave the shelves only for the call that claims them. */
  lemma ShelfStep(cfg: Config, s: State, step: Step, b: Buf)
    requires Enabled(cfg, s, step) && Shelved(s, b)
    ensures Tracked(Next(cfg, s, step), b)
  {
    var s' := Next(cfg, s, step);
    if step.Get? && s.free != [] && b == s.free[|s.free| - 1] {
      assert Owns(s'.calls[step.id], b);
    } else if step.Add? && KeyOf(s, step.id) !in s.cache && b in s.cache.Values {
      var k :| k in s.cache && s.cache[k] == b;
      assert k in s'.cache ==> s'.cache[k] == b;
    } else if step.Get? && s.free != [] && b in s.free {
      var i :| 0 <= i < |s.free| && s.free[i] == b;
      assert s'.free[i] == b;
    }
  }

  /** A call gives its own buffer up only to the cache or to a release. */
  lemma OwnerStep(cfg: Config, s: State, step: Step, id: nat, b: Buf)
    requires Enabled(cfg, s, step) && id in s.calls && Owns(s.calls[id], b)
    requires step.CheckClean? ==> s.mem[s.calls[step.id].phase.buf] == []
    ensures Tracked(Next(cfg, s, step), b)
  {
    var s' := Next(cfg, s, step);
    if step.Add? && step.id == id && KeyOf(s, id) !in s.cache {
      assert s'.cache[KeyOf(s, id)] == b;
    } else if !(step.Fail? && step.id == id) && !(step.Add? && step.id == id) {
      if step.Copy? && step.id == id { AfterCopyPhase(s.calls[id], s.mem[b]); }
      assert id in s'.calls && Owns(s'.calls[id], b);
    }
  }

  lemma StepTracks(cfg: Config, s: State, roles: map<Buf, Role>, step: Step)
    requires Inv(cfg, s, roles) && Enabled(cfg, s, step) && AllTracked(s)
    ensures AllTracked(Next(cfg, s, step))
  {
    var s' := Next(cfg, s, step);
    if step.CheckClean? { assert CallOk(cfg, s, roles, step.id); }
    forall b | b in s'.mem ensures Tracked(s', b) {
      if b !in s.mem {
        assert Owns(s'.calls[step.id], b);
      } else {
        assert Tracked(s, b);
        if Shelved(s, b) {
          ShelfStep(cfg, s, step, b);
        } else {
          var id :| id in s.calls && Owns(s.calls[id], b);
          OwnerStep(cfg, s, step, id, b);
        }
      }
    }
  }

  // ---------------------------------------------------------------- whole runs

  /** The steps can be taken one after the other, from the start. */
  ghost predicate IsRun(cfg: Config, steps: seq<Step>)
    decreases |steps|, 0
  {
    var n := |steps| - 1;
    steps == [] || (IsRun(cfg, steps[..n]) && Enabled(cfg, After(cfg, steps[..n]), steps[n]))
  }

  ghost function After(cfg: Config, steps: seq<Step>): (s: State)
    requires IsRun(cfg, steps)
    decreases |steps|, 1
  {
    var n := |steps| - 1;
    if steps == [] then Init else Next(cfg, After(cfg, steps[..n]), steps[n])
  }

  /** No step of the run disturbs a call between its lookup and its pin. */
  ghost predicate RunUndisturbed(cfg: Config, steps: seq<Step>)
    requires IsRun(cfg, steps)
    decreases |steps|
  {
    var n := |steps| - 1;
    steps == [] || (RunUndisturbed(cfg, steps[..n]) && !Disturbs(cfg, After(cfg, steps[..n]), steps[n]))
  }

  lemma {:induction false} RunKeeps(cfg: Config, steps: seq<Step>) returns (roles: map<Buf, Role>)
    requires IsRun(cfg, steps) && RunUndisturbed(cfg, steps)
    ensures Inv(cfg, After(cfg, steps), roles) && AllTracked(After(cfg, steps))
    decreases |steps|
  {
    roles := map[];
    if steps != [] {
      var n := |steps| - 1;
      roles := RunKeeps(cfg, steps[..n]);
      StepTracks(cfg, After(cfg, steps[..n]), roles, steps[n]);
      roles := StepKeeps(cfg, After(cfg, steps[..n]), roles, steps[n]);
    }
  }

  /** What is true of every state of every undisturbed run. */
  ghost predicate Safe(cfg: Config, s: State) {
    // a call that has returned has exactly the window it asked for, and no call found a dirty buffer
    && (forall id :: id in s.calls && s.calls[id].phase == Finished ==>
          Copied(s.calls[id].file.content, s.calls[id].off, s.calls[id].got, s.calls[id].len))
    && (forall id :: id in s.calls ==> s.calls[id].phase != Dirty)
    // no call slices its leaf out of range
    && (forall id :: id in s.calls && s.calls[id].phase.Reading? ==>
          s.calls[id].phase.buf in s.mem && s.calls[id].offset <= |s.mem[s.calls[id].phase.buf]|)
    // the free list holds each buffer once, and none that is pinned or cached
    && (forall i, j :: 0 <= i < j < |s.free| ==> s.free[i] != s.free[j])
    && |s.free| <= cfg.watermark + 1
    && (forall i :: 0 <= i < |s.free| ==> !Pinned(s, s.free[i]) && s.free[i] !in s.cache.Values)
    // a cached buffer holds its leaf
    && (forall k :: k in s.cache ==> s.cache[k] in s.mem && k in cfg.blobs && s.mem[s.cache[k]] == cfg.blobs[k])
  }

  lemma FreeIsIdle(cfg: Config, s: State, roles: map<Buf, Role>, i: nat)
    requires Inv(cfg, s, roles) && i < |s.free|
    ensures !Pinned(s, s.free[i]) && s.free[i] !in s.cache.Values
  {
    var b := s.free[i];
    assert Has(roles, b, Free(i));
    if id :| id in s.calls && Pins(s.calls[id], b) { UsedBy(cfg, s, roles, id, b); }
    forall k | k in s.cache ensures s.cache[k] != b { assert CacheOk(cfg, s, roles, k); }
  }

  lemma InvIsSafe(cfg: Config, s: State, roles: map<Buf, Role>)
    requires Inv(cfg, s, roles)
    ensures Safe(cfg, s)
  {
    forall id | id in s.calls
      ensures s.calls[id].phase != Dirty
      ensures s.calls[id].phase == Finished ==> Copied(s.calls[id].file.content, s.calls[id].off, s.calls[id].got, s.calls[id].len)
      ensures s.calls[id].phase.Reading? ==>
        s.calls[id].phase.buf in s.mem && s.calls[id].offset <= |s.mem[s.calls[id].phase.buf]|
    {
      assert CallOk(cfg, s, roles, id);
      if s.calls[id].phase.Reading? { OffsetInLeaf(cfg, s.calls[id]); }
    }
    forall i, j | 0 <= i < j < |s.free| ensures s.free[i] != s.free[j] {
      assert Has(roles, s.free[i], Free(i)) && Has(roles, s.free[j], Free(j));
    }
    forall i | 0 <= i < |s.free| ensures !Pinned(s, s.free[i]) && s.free[i] !in s.cache.Values {
      FreeIsIdle(cfg, s, roles, i);
    }
    forall k | k in s.cache ensures s.cache[k] in s.mem && k in cfg.blobs && s.mem[s.cache[k]] == cfg.blobs[k] {
      assert CacheOk(cfg, s, roles, k);
    }
  }

  /** Any number of concurrent calls, evictions and releases, in any order. */
  lemma UndisturbedRunIsSafe(cfg: Config, steps: seq<Step>)
    requires IsRun(cfg, steps) && RunUndisturbed(cfg, steps)
    ensures Safe(cfg, After(cfg, steps)) && AllTracked(After(cfg, steps))
  {
    var roles := RunKeeps(cfg, steps);
    InvIsSafe(cfg, After(cfg, steps), roles);
  }
}
