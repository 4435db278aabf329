/** The sweep: every listed blob is looked up in the index, and deleted if it is neither there nor newer.

    Pages of keys are worked on in parallel. Looking a blob's attributes up and deleting it are two calls of the
    store, and blobs may be uploaded between them. */
module PurgeSweep {
  import opened Chunking
  import opened PurgeMark
  import opened PurgeUpload
  import Cafs

  /** The attributes of a blob; a checksum of 0 is not known. */
  datatype Blob = Blob(updated: int, size: nat, crc: nat)

  type BlobStore = map<Key, Blob>

  datatype Fate = Indexed | MoreRecent | Deleted

  /** What a sweep is run with: the index, its time, the pages of listed keys, and the keys whose attributes
      cannot be looked up. Such a failure is ignored, and leaves a time that is older than any index. */
  datatype Sweep = Sweep(kv: map<Key, bool>, indexTime: int, dryRun: bool, batches: seq<seq<Key>>, blind: set<Key>) {

    predicate Newer(blobs: BlobStore, key: Key) { key in blobs && indexTime < blobs[key].updated }

    function FateOf(blobs: BlobStore, key: Key): (f: Fate) {
      if key in kv then Indexed
      else if key !in blind && Newer(blobs, key) then MoreRecent
      else Deleted
    }

    /** A blob that must survive. */
    predicate Protected(blobs: BlobStore, key: Key) { key in blobs && FateOf(blobs, key) != Deleted }
  }

  /** A page's worker has decided to delete a key, or is free to look up the next one. */
  datatype Worker = Idle | Deleting(key: Key)

  /** `at` is how far each page is; `uploaded` is history: the keys uploaded while the sweep ran. */
  datatype Sweeping = Sweeping(blobs: BlobStore, at: seq<nat>, workers: seq<Worker>,
                               indexed: nat, moreRecent: nat, deleted: nat, uploaded: set<Key>)

  /** An upload does not write a blob that is there, unless it is empty or known to differ. */
  predicate Reuses(blobs: BlobStore, key: Key, blob: Blob) {
    key in blobs && blobs[key].size > 0 && (blobs[key].crc == 0 || blobs[key].crc == blob.crc)
  }

  /** The blob store decides this from size and checksum as it does for the writer of a file. */
  lemma ReusesIffTrusted(crc: Cafs.Checksum, stored: seq<Cafs.Byte>, data: seq<Cafs.Byte>, blobs: BlobStore, key: Key, now: int)
    requires key in blobs && blobs[key].size == |stored| && blobs[key].crc == crc(stored)
    ensures Reuses(blobs, key, Blob(now, |data|, crc(data))) <==> Cafs.Trusted(crc, stored, data)
  {
  }

  datatype SweepStep = Check(b: nat) | Delete(b: nat) | Put(key: Key, blob: Blob)

  ghost predicate Shaped(c: Sweep, s: Sweeping) {
    && |s.at| == |s.workers| == |c.batches|
    && forall b :: 0 <= b < |s.at| ==> s.at[b] <= |c.batches[b]|
  }

  predicate CanStep(c: Sweep, s: Sweeping, step: SweepStep) {
    match step
    case Check(b) => b < |c.batches| && b < |s.at| && b < |s.workers| && s.at[b] < |c.batches[b]| && s.workers[b].Idle?
    case Delete(b) => b < |s.workers| && s.workers[b].Deleting?
    case Put(_, blob) => c.indexTime < blob.updated
  }

  function Do(c: Sweep, s: Sweeping, step: SweepStep): (s': Sweeping)
    requires CanStep(c, s, step)
  {
    match step
    case Check(b) =>
      var key := c.batches[b][s.at[b]];
      var s1 := s.(at := s.at[b := s.at[b] + 1]);
      (match c.FateOf(s.blobs, key)
       case Indexed => s1.(indexed := s.indexed + 1)
       case MoreRecent => s1.(moreRecent := s.moreRecent + 1)
       case Deleted =>
         var s2 := s1.(deleted := s.deleted + 1);
         if c.dryRun then s2 else s2.(workers := s.workers[b := Deleting(key)]))
    case Delete(b) => s.(blobs := s.blobs - {s.workers[b].key}, workers := s.workers[b := Idle])
    case Put(key, blob) =>
      s.(blobs := if Reuses(s.blobs, key, blob) then s.blobs else s.blobs[key := blob], uploaded := s.uploaded + {key})
  }

  /** An upload leaves the store as it was if a blob is there, not empty and with an unknown or the same checksum, and
      writes its blob if there is none, or an empty one, or one that is known to differ. */
  lemma PutRule(c: Sweep, s: Sweeping, key: Key, blob: Blob)
    requires CanStep(c, s, Put(key, blob))
    ensures key in Do(c, s, Put(key, blob)).uploaded
    ensures key in s.blobs && s.blobs[key].size > 0 && (s.blobs[key].crc == 0 || s.blobs[key].crc == blob.crc) ==>
      Do(c, s, Put(key, blob)).blobs == s.blobs
    ensures key !in s.blobs || s.blobs[key].size == 0 || (s.blobs[key].crc != 0 && s.blobs[key].crc != blob.crc) ==>
      Do(c, s, Put(key, blob)).blobs == s.blobs[key := blob]
  {
  }

  function Start(c: Sweep, blobs: BlobStore): (s: Sweeping) {
    Sweeping(blobs, seq(|c.batches|, _ => 0), seq(|c.batches|, _ => Idle), 0, 0, 0, {})
  }

  predicate Done(c: Sweep, s: Sweeping) {
    && |s.at| == |s.workers| == |c.batches|
    && forall b :: 0 <= b < |c.batches| ==> s.at[b] == |c.batches[b]| && s.workers[b].Idle?
  }

  ghost predicate IsSweep(c: Sweep, s: Sweeping, steps: seq<SweepStep>)
    decreases |steps|, 0
  {
    var n := |steps| - 1;
    steps == [] || (IsSweep(c, s, steps[..n]) && CanStep(c, SweptBy(c, s, steps[..n]), steps[n]))
  }

  ghost function SweptBy(c: Sweep, s: Sweeping, steps: seq<SweepStep>): (s': Sweeping)
    requires IsSweep(c, s, steps)
    decreases |steps|, 1
  {
    var n := |steps| - 1;
    if steps == [] then s else Do(c, SweptBy(c, s, steps[..n]), steps[n])
  }

  // ---------------------------------------------------------------- what every step keeps

  ghost predicate PendingDelete(s: Sweeping, k: Key) { exists b :: 0 <= b < |s.workers| && s.workers[b] == Deleting(k) }

  ghost predicate CheckedAt(batches: seq<seq<Key>>, at: seq<nat>, b: nat, i: nat, k: Key) {
    b < |at| && b < |batches| && i < at[b] && i < |batches[b]| && batches[b][i] == k
  }

  ghost predicate Checked(batches: seq<seq<Key>>, at: seq<nat>, k: Key) { exists b, i :: CheckedAt(batches, at, b, i, k) }

  ghost predicate KeyOk(c: Sweep, blobs0: BlobStore, s: Sweeping, k: Key) {
    // what was to survive does, and nobody is about to delete it
    && (c.Protected(blobs0, k) ==> c.Protected(s.blobs, k) && !PendingDelete(s, k))
    // only what was looked up, and is not indexed, is about to be deleted
    && (PendingDelete(s, k) ==> !c.dryRun && k !in c.kv && Checked(c.batches, s.at, k))
    // what was not looked up is still there
    && (k in blobs0 && (c.dryRun || !Checked(c.batches, s.at, k)) ==> k in s.blobs)
    // what was looked up and is still there is indexed, or newer, or about to be deleted
    && (!c.dryRun && Checked(c.batches, s.at, k) && k in s.blobs ==> k in c.kv || c.Newer(s.blobs, k) || PendingDelete(s, k))
    && (k in s.blobs ==> k in blobs0 || k in s.uploaded)
  }

  ghost predicate SweepOk(c: Sweep, blobs0: BlobStore, s: Sweeping) {
    && Shaped(c, s)
    && s.indexed + s.moreRecent + s.deleted == Sum(s.at)
    && forall k {:trigger KeyOk(c, blobs0, s, k)} :: KeyOk(c, blobs0, s, k)
  }

  lemma CheckedNext(batches: seq<seq<Key>>, at: seq<nat>, b: nat, k: Key)
    requires |at| == |batches| && b < |at| && at[b] < |batches[b]|
    ensures Checked(batches, at[b := at[b] + 1], k) <==> Checked(batches, at, k) || k == batches[b][at[b]]
  {
    var at' := at[b := at[b] + 1];
    if c, i :| CheckedAt(batches, at, c, i, k) { assert CheckedAt(batches, at', c, i, k); }
    if k == batches[b][at[b]] { assert CheckedAt(batches, at', b, at[b], k); }
    if c, i :| CheckedAt(batches, at', c, i, k) { assert CheckedAt(batches, at, c, i, k) || (c == b && i == at[b]); }
  }

  /** A worker's new state decides what is pending. */
  lemma PendingNext(s: Sweeping, s': Sweeping, b: nat, w: Worker, k: Key)
    requires b < |s.workers| && s'.workers == s.workers[b := w]
    ensures w == Deleting(k) ==> PendingDelete(s', k)
    ensures w != Deleting(k) && PendingDelete(s', k) ==> PendingDelete(s, k)
    ensures s.workers[b] != Deleting(k) && PendingDelete(s, k) ==> PendingDelete(s', k)
  {
    if w == Deleting(k) { assert s'.workers[b] == Deleting(k); }
    if i :| 0 <= i < |s'.workers| && s'.workers[i] == Deleting(k) { assert i != b ==> s.workers[i] == Deleting(k); }
    if i :| 0 <= i < |s.workers| && s.workers[i] == Deleting(k) { assert i != b ==> s'.workers[i] == Deleting(k); }
  }

  lemma CheckKeepsKey(c: Sweep, blobs0: BlobStore, s: Sweeping, b: nat, k: Key)
    requires Shaped(c, s) && KeyOk(c, blobs0, s, k) && CanStep(c, s, Check(b))
    ensures KeyOk(c, blobs0, Do(c, s, Check(b)), k)
  {
    var s' := Do(c, s, Check(b));
    CheckedNext(c.batches, s.at, b, k);
    assert s'.workers == s.workers[b := s'.workers[b]];
    PendingNext(s, s', b, s'.workers[b], k);
  }

  lemma DeleteKeepsKey(c: Sweep, blobs0: BlobStore, s: Sweeping, b: nat, k: Key)
    requires Shaped(c, s) && KeyOk(c, blobs0, s, k) && CanStep(c, s, Delete(b)) && KeyOk(c, blobs0, s, s.workers[b].key)
    ensures KeyOk(c, blobs0, Do(c, s, Delete(b)), k)
  {
    var s' := Do(c, s, Delete(b));
    PendingNext(s, s', b, Idle, k);
    if k == s.workers[b].key { assert PendingDelete(s, k); }
  }

  lemma StepKeepsSweep(c: Sweep, blobs0: BlobStore, s: Sweeping, step: SweepStep)
    requires SweepOk(c, blobs0, s) && CanStep(c, s, step)
    ensures SweepOk(c, blobs0, Do(c, s, step))
  {
    var s' := Do(c, s, step);
    if step.Check? { SumUpdate(s.at, step.b, s.at[step.b] + 1); }
    forall k ensures KeyOk(c, blobs0, s', k) {
      assert KeyOk(c, blobs0, s, k);
      match step {
        case Check(b) => CheckKeepsKey(c, blobs0, s, b, k);
        case Delete(b) =>
          assert KeyOk(c, blobs0, s, s.workers[b].key);
          DeleteKeepsKey(c, blobs0, s, b, k);
        case Put(_, _) => assert PendingDelete(s', k) <==> PendingDelete(s, k);
      }
    }
  }

  lemma {:induction false} SumOfZeros(at: seq<nat>)
    requires forall i :: 0 <= i < |at| ==> at[i] == 0
    ensures Sum(at) == 0
  {
    if at != [] { SumOfZeros(at[1..]); }
  }

  lemma StartIsOk(c: Sweep, blobs: BlobStore)
    ensures SweepOk(c, blobs, Start(c, blobs))
  {
    var s := Start(c, blobs);
    SumOfZeros(s.at);
    forall k ensures KeyOk(c, blobs, s, k) { assert !PendingDelete(s, k) && !Checked(c.batches, s.at, k); }
  }

  lemma {:induction false} SweepKeepsOk(c: Sweep, blobs0: BlobStore, s: Sweeping, steps: seq<SweepStep>)
    requires SweepOk(c, blobs0, s) && IsSweep(c, s, steps)
    ensures SweepOk(c, blobs0, SweptBy(c, s, steps))
    decreases |steps|
  {
    if steps != [] {
      var n := |steps| - 1;
      SweepKeepsOk(c, blobs0, s, steps[..n]);
      StepKeepsSweep(c, blobs0, SweptBy(c, s, steps[..n]), steps[n]);
    }
  }

  lemma AllChecked(batches: seq<seq<Key>>, at: seq<nat>, k: Key)
    requires |at| == |batches| && forall b :: 0 <= b < |at| ==> at[b] == |batches[b]|
    ensures Checked(batches, at, k) <==> k in Flatten(batches)
  {
    InFlatten(batches, k);
    if k in Flatten(batches) {
      var b :| 0 <= b < |batches| && k in batches[b];
      var i :| 0 <= i < |batches[b]| && batches[b][i] == k;
      assert CheckedAt(batches, at, b, i, k);
    }
  }

  /** What a finished sweep has done to a key: indexed or newer, it survives; only listed keys are deleted, and
      all of those that may be are; nothing appears but by an upload. */
  ghost predicate SweptKey(c: Sweep, blobs0: BlobStore, s: Sweeping, k: Key) {
    && (c.Protected(blobs0, k) ==> c.Protected(s.blobs, k))
    && (k in blobs0 && (c.dryRun || k !in Flatten(c.batches)) ==> k in s.blobs)
    && (!c.dryRun && k in Flatten(c.batches) && k in s.blobs ==> k in c.kv || c.Newer(s.blobs, k))
    && (k in s.blobs ==> k in blobs0 || k in s.uploaded)
  }

  /** The counters add up to the keys scanned, and every key is as it should be. */
  ghost predicate Swept(c: Sweep, blobs0: BlobStore, s: Sweeping) {
    && s.indexed + s.moreRecent + s.deleted == |Flatten(c.batches)|
    && forall k {:trigger SweptKey(c, blobs0, s, k)} :: SweptKey(c, blobs0, s, k)
  }

  /** Whatever the interleaving of lookups, deletions and uploads was. */
  lemma DoneIsSwept(c: Sweep, blobs0: BlobStore, s: Sweeping)
    requires SweepOk(c, blobs0, s) && Done(c, s)
    ensures Swept(c, blobs0, s)
  {
    SumBounded(s.at, c.batches);
    forall k ensures SweptKey(c, blobs0, s, k) {
      assert KeyOk(c, blobs0, s, k) && !PendingDelete(s, k);
      AllChecked(c.batches, s.at, k);
    }
  }

  // ---------------------------------------------------------------- what the counters count

  function InIndex(kv: map<Key, bool>): (p: Key -> bool) { k => k in kv }

  /** Not indexed, and known to be newer when the sweep began. */
  function SurelyNewer(c: Sweep, blobs0: BlobStore): (p: Key -> bool) {
    k => k !in c.kv && k !in c.blind && k in blobs0 && c.indexTime < blobs0[k].updated
  }

  /** Or uploaded since. */
  function PerhapsNewer(c: Sweep, blobs0: BlobStore, uploaded: set<Key>): (p: Key -> bool) {
    k => k !in c.kv && k !in c.blind && ((k in blobs0 && c.indexTime < blobs0[k].updated) || k in uploaded)
  }

  function SurelyOld(c: Sweep, blobs0: BlobStore): (p: Key -> bool) {
    k => k !in c.kv && (k in c.blind || k !in blobs0 || blobs0[k].updated <= c.indexTime)
  }

  /** How many keys that qualify were looked up, by page. */
  ghost function Seen(batches: seq<seq<Key>>, at: seq<nat>, p: Key -> bool): (n: seq<nat>)
    requires |at| == |batches| && forall b :: 0 <= b < |at| ==> at[b] <= |batches[b]|
  {
    seq(|at|, b requires 0 <= b < |at| => Count(batches[b][..at[b]], p))
  }

  lemma SeenNext(batches: seq<seq<Key>>, at: seq<nat>, b: nat, p: Key -> bool)
    requires |at| == |batches| && (forall i :: 0 <= i < |at| ==> at[i] <= |batches[i]|) && b < |at| && at[b] < |batches[b]|
    ensures Sum(Seen(batches, at[b := at[b] + 1], p)) == Sum(Seen(batches, at, p)) + if p(batches[b][at[b]]) then 1 else 0
  {
    var n, page := at[b], batches[b];
    assert page[..n + 1][..n] == page[..n];
    var before, after := Seen(batches, at, p), Seen(batches, at[b := n + 1], p);
    assert after == before[b := Count(page[..n + 1], p)];
    SumUpdate(before, b, Count(page[..n + 1], p));
  }

  /** The counters count keys that were looked up, by what they are: `indexed` those in the index, and `moreRecent`
      at least those known to be newer at first, and at most these and those uploaded since. */
  ghost predicate Counted(c: Sweep, blobs0: BlobStore, s: Sweeping) {
    && Shaped(c, s)
    && s.indexed == Sum(Seen(c.batches, s.at, InIndex(c.kv)))
    && Sum(Seen(c.batches, s.at, SurelyNewer(c, blobs0))) <= s.moreRecent
    && s.moreRecent <= Sum(Seen(c.batches, s.at, PerhapsNewer(c, blobs0, s.uploaded)))
    && forall k :: c.Newer(s.blobs, k) ==> c.Newer(blobs0, k) || k in s.uploaded
  }

  /** What is decided of a key, in terms of what was there at first and what was uploaded since. */
  lemma FateIs(c: Sweep, blobs0: BlobStore, s: Sweeping, k: Key)
    requires KeyOk(c, blobs0, s, k) && (c.Newer(s.blobs, k) ==> c.Newer(blobs0, k) || k in s.uploaded)
    ensures c.FateOf(s.blobs, k) == Indexed <==> k in c.kv
    ensures SurelyNewer(c, blobs0)(k) ==> c.FateOf(s.blobs, k) == MoreRecent
    ensures c.FateOf(s.blobs, k) == MoreRecent ==> PerhapsNewer(c, blobs0, s.uploaded)(k)
  {
  }

  lemma CheckKeepsCounted(c: Sweep, blobs0: BlobStore, s: Sweeping, b: nat)
    requires Counted(c, blobs0, s) && CanStep(c, s, Check(b)) && KeyOk(c, blobs0, s, c.batches[b][s.at[b]])
    ensures Counted(c, blobs0, Do(c, s, Check(b)))
  {
    FateIs(c, blobs0, s, c.batches[b][s.at[b]]);
    SeenNext(c.batches, s.at, b, InIndex(c.kv));
    SeenNext(c.batches, s.at, b, SurelyNewer(c, blobs0));
    SeenNext(c.batches, s.at, b, PerhapsNewer(c, blobs0, s.uploaded));
  }

  lemma PutKeepsCounted(c: Sweep, blobs0: BlobStore, s: Sweeping, step: SweepStep)
    requires Counted(c, blobs0, s) && CanStep(c, s, step) && step.Put?
    ensures Counted(c, blobs0, Do(c, s, step))
  {
    var s' := Do(c, s, step);
    var before, after := PerhapsNewer(c, blobs0, s.uploaded), PerhapsNewer(c, blobs0, s'.uploaded);
    forall b | 0 <= b < |s.at| ensures Count(c.batches[b][..s.at[b]], before) <= Count(c.batches[b][..s.at[b]], after) {
      CountMonotone(c.batches[b][..s.at[b]], before, after);
    }
    SumMonotone(Seen(c.batches, s.at, before), Seen(c.batches, s.at, after));
  }

  lemma StartIsCounted(c: Sweep, blobs: BlobStore)
    ensures Counted(c, blobs, Start(c, blobs))
  {
    var s := Start(c, blobs);
    SumOfZeros(Seen(c.batches, s.at, InIndex(c.kv)));
    SumOfZeros(Seen(c.batches, s.at, SurelyNewer(c, blobs)));
    SumOfZeros(Seen(c.batches, s.at, PerhapsNewer(c, blobs, {})));
  }

  lemma {:induction false} SweepKeepsCounted(c: Sweep, blobs0: BlobStore, s: Sweeping, steps: seq<SweepStep>)
    requires SweepOk(c, blobs0, s) && Counted(c, blobs0, s) && IsSweep(c, s, steps)
    ensures Counted(c, blobs0, SweptBy(c, s, steps))
    decreases |steps|
  {
    if steps != [] {
      var n := |steps| - 1;
      SweepKeepsCounted(c, blobs0, s, steps[..n]);
      SweepKeepsOk(c, blobs0, s, steps[..n]);
      var t := SweptBy(c, s, steps[..n]);
      match steps[n] {
        case Check(b) =>
          assert KeyOk(c, blobs0, t, c.batches[b][t.at[b]]);
          CheckKeepsCounted(c, blobs0, t, b);
        case Delete(_) =>
        case Put(_, _) => PutKeepsCounted(c, blobs0, t, steps[n]);
      }
    }
  }

  lemma SeenAll(batches: seq<seq<Key>>, at: seq<nat>, p: Key -> bool)
    requires |at| == |batches| && forall b :: 0 <= b < |at| ==> at[b] == |batches[b]|
    ensures Sum(Seen(batches, at, p)) == Count(Flatten(batches), p)
  {
    assert forall b :: 0 <= b < |at| ==> batches[b][..at[b]] == batches[b];
    CountFlatten(batches, Seen(batches, at, p), p);
  }

  /** What a finished sweep reports, in terms of the listed keys; without uploads, exactly. */
  ghost predicate Reported(c: Sweep, blobs0: BlobStore, s: Sweeping) {
    var listed := Flatten(c.batches);
    && s.indexed == Count(listed, InIndex(c.kv))
    && Count(listed, SurelyNewer(c, blobs0)) <= s.moreRecent <= Count(listed, PerhapsNewer(c, blobs0, s.uploaded))
    && (s.uploaded == {} ==> s.moreRecent == Count(listed, SurelyNewer(c, blobs0)) && s.deleted == Count(listed, SurelyOld(c, blobs0)))
  }

  lemma DoneIsReported(c: Sweep, blobs0: BlobStore, s: Sweeping)
    requires Counted(c, blobs0, s) && Done(c, s) && s.indexed + s.moreRecent + s.deleted == |Flatten(c.batches)|
    ensures Reported(c, blobs0, s)
  {
    var listed := Flatten(c.batches);
    SeenAll(c.batches, s.at, InIndex(c.kv));
    SeenAll(c.batches, s.at, SurelyNewer(c, blobs0));
    SeenAll(c.batches, s.at, PerhapsNewer(c, blobs0, s.uploaded));
    if s.uploaded == {} {
      CountMonotone(listed, PerhapsNewer(c, blobs0, {}), SurelyNewer(c, blobs0));
      CountThree(listed, InIndex(c.kv), SurelyNewer(c, blobs0), SurelyOld(c, blobs0));
    }
  }

  // ---------------------------------------------------------------- uploads while the sweep runs

  ghost predicate NoPut(steps: seq<SweepStep>, k: Key) { forall i :: 0 <= i < |steps| && steps[i].Put? ==> steps[i].key != k }

  /** The key is still to be looked up. */
  ghost predicate ToCheck(batches: seq<seq<Key>>, at: seq<nat>, k: Key) { exists b, i :: ToCheckAt(batches, at, b, i, k) }

  ghost predicate ToCheckAt(batches: seq<seq<Key>>, at: seq<nat>, b: nat, i: nat, k: Key) {
    b < |at| && b < |batches| && at[b] <= i < |batches[b]| && batches[b][i] == k
  }

  /** Somebody is about to delete the blob, or will decide so. */
  ghost predicate Doomed(c: Sweep, s: Sweeping, k: Key) {
    PendingDelete(s, k) || (!c.dryRun && ToCheck(c.batches, s.at, k) && !c.Protected(s.blobs, k))
  }

  lemma ToCheckNext(batches: seq<seq<Key>>, at: seq<nat>, b: nat, k: Key)
    requires |at| == |batches| && b < |at| && at[b] < |batches[b]|
    ensures ToCheck(batches, at, k) <==> ToCheck(batches, at[b := at[b] + 1], k) || k == batches[b][at[b]]
  {
    var at' := at[b := at[b] + 1];
    if c, i :| ToCheckAt(batches, at', c, i, k) { assert ToCheckAt(batches, at, c, i, k); }
    if k == batches[b][at[b]] { assert ToCheckAt(batches, at, b, at[b], k); }
    if c, i :| ToCheckAt(batches, at, c, i, k) { assert ToCheckAt(batches, at', c, i, k) || (c == b && i == at[b]); }
  }

  /** No step but an upload of the key itself changes whether its blob is there to stay. */
  lemma StepKeepsDoom(c: Sweep, s: Sweeping, step: SweepStep, k: Key)
    requires Shaped(c, s) && CanStep(c, s, step) && (step.Put? ==> step.key != k)
    ensures var s' := Do(c, s, step);
      Shaped(c, s') && (k in s'.blobs && !Doomed(c, s', k) <==> k in s.blobs && !Doomed(c, s, k))
  {
    var s' := Do(c, s, step);
    match step {
      case Check(b) =>
        ToCheckNext(c.batches, s.at, b, k);
        assert s'.workers == s.workers[b := s'.workers[b]];
        PendingNext(s, s', b, s'.workers[b], k);
      case Delete(b) =>
        PendingNext(s, s', b, Idle, k);
        if s.workers[b] == Deleting(k) { assert PendingDelete(s, k); }
      case Put(_, _) => assert PendingDelete(s', k) <==> PendingDelete(s, k);
    }
  }

  /** A blob is there when the sweep is done, exactly if it is there now, nobody is about to delete it, and it is
      not both still to be looked up and up for deletion. */
  lemma {:induction false} StaysIff(c: Sweep, s: Sweeping, steps: seq<SweepStep>, k: Key)
    requires Shaped(c, s) && IsSweep(c, s, steps) && NoPut(steps, k)
    ensures var t := SweptBy(c, s, steps);
      && Shaped(c, t) && (k in t.blobs && !Doomed(c, t, k) <==> k in s.blobs && !Doomed(c, s, k))
      && (Done(c, t) ==> (k in t.blobs <==> k in s.blobs && !Doomed(c, s, k)))
    decreases |steps|
  {
    var t := SweptBy(c, s, steps);
    if steps != [] {
      var n := |steps| - 1;
      StaysIff(c, s, steps[..n], k);
      StepKeepsDoom(c, SweptBy(c, s, steps[..n]), steps[n], k);
    }
    if Done(c, t) { assert !Doomed(c, t, k); }
  }

  /** What an upload during the sweep leaves is there in the end, exactly if it is not doomed. So a blob that the
      upload wrote survives exactly if no deletion of its key had been decided and not carried out, provided its
      attributes can be looked up; and a blob that it found and reused goes if it is old and yet to be looked up. */
  lemma UploadSurvivesIff(c: Sweep, s: Sweeping, k: Key, blob: Blob, steps: seq<SweepStep>)
    requires Shaped(c, s) && CanStep(c, s, Put(k, blob)) && IsSweep(c, Do(c, s, Put(k, blob)), steps) && NoPut(steps, k)
    requires Done(c, SweptBy(c, Do(c, s, Put(k, blob)), steps))
    ensures var there := k in SweptBy(c, Do(c, s, Put(k, blob)), steps).blobs;
      && (there <==> !Doomed(c, Do(c, s, Put(k, blob)), k))
      && (!Reuses(s.blobs, k, blob) && k !in c.blind ==> (there <==> !PendingDelete(s, k)))
      && (Reuses(s.blobs, k, blob) ==> (there <==> !Doomed(c, s, k)))
  {
    var u := Do(c, s, Put(k, blob));
    assert PendingDelete(u, k) <==> PendingDelete(s, k);
    StaysIff(c, u, steps, k);
  }

  lemma ListedIsToCheck(c: Sweep, blobs: BlobStore, k: Key)
    requires k in Flatten(c.batches)
    ensures ToCheck(c.batches, Start(c, blobs).at, k)
  {
    InFlatten(c.batches, k);
    var b :| 0 <= b < |c.batches| && k in c.batches[b];
    var i :| 0 <= i < |c.batches[b]| && c.batches[b][i] == k;
    assert ToCheckAt(c.batches, Start(c, blobs).at, b, i, k);
  }

  /** A blob that is listed, old and not indexed goes, although a bundle put after the scan may use it: an upload
      of the same data, before or during the sweep, finds the blob there, trusts it and does not write it again. */
  lemma ReusedBlobGoes(c: Sweep, blobs: BlobStore, before: seq<SweepStep>, blob: Blob, after: seq<SweepStep>, k: Key)
    requires !c.dryRun && k in Flatten(c.batches) && c.FateOf(blobs, k) == Deleted
    requires IsSweep(c, Start(c, blobs), before) && NoPut(before, k)
    requires var s := SweptBy(c, Start(c, blobs), before);
      && CanStep(c, s, Put(k, blob)) && Reuses(s.blobs, k, blob)
      && IsSweep(c, Do(c, s, Put(k, blob)), after) && NoPut(after, k) && Done(c, SweptBy(c, Do(c, s, Put(k, blob)), after))
    ensures var t := SweptBy(c, Do(c, SweptBy(c, Start(c, blobs), before), Put(k, blob)), after);
      k in t.uploaded && k !in t.blobs
  {
    var s0 := Start(c, blobs);
    ListedIsToCheck(c, blobs, k);
    StaysIff(c, s0, before, k);
    var s := SweptBy(c, s0, before);
    UploadSurvivesIff(c, s, k, blob, after);
    UploadedGrows(c, Do(c, s, Put(k, blob)), after, k);
  }

  lemma {:induction false} UploadedGrows(c: Sweep, s: Sweeping, steps: seq<SweepStep>, k: Key)
    requires IsSweep(c, s, steps) && k in s.uploaded
    ensures k in SweptBy(c, s, steps).uploaded
    decreases |steps|
  {
    if steps != [] { UploadedGrows(c, s, steps[..|steps| - 1], k); }
  }

  // ---------------------------------------------------------------- when no upload can be lost

  /** How much a page's worker has left to do. */
  function Work(c: Sweep, s: Sweeping, b: nat): (n: nat)
    requires b < |c.batches| && b < |s.at| && b < |s.workers|
  {
    (if s.at[b] < |c.batches[b]| then 2 * (|c.batches[b]| - s.at[b]) else 0) + if s.workers[b].Deleting? then 1 else 0
  }

  function Works(c: Sweep, s: Sweeping): (ws: seq<nat>)
    requires |s.at| == |s.workers| == |c.batches|
  {
    seq(|c.batches|, b requires 0 <= b < |c.batches| => Work(c, s, b))
  }

  ghost predicate Reaches(c: Sweep, s: Sweeping, t: Sweeping) { exists steps :: IsSweep(c, s, steps) && SweptBy(c, s, steps) == t }

  lemma TakeStep(c: Sweep, s: Sweeping, t: Sweeping, step: SweepStep)
    requires Reaches(c, s, t) && CanStep(c, t, step)
    ensures Reaches(c, s, Do(c, t, step))
  {
    var steps :| IsSweep(c, s, steps) && SweptBy(c, s, steps) == t;
    var longer := steps + [step];
    assert longer[..|steps|] == steps && longer[|steps|] == step;
    assert IsSweep(c, s, longer) && SweptBy(c, s, longer) == Do(c, t, step);
  }

  /** One step of a page's worker leaves less to do. */
  lemma WorkShrinks(c: Sweep, s: Sweeping, b: nat, step: SweepStep)
    requires Shaped(c, s) && b < |c.batches| && CanStep(c, s, step) && (step == Check(b) || step == Delete(b))
    ensures Shaped(c, Do(c, s, step)) && Sum(Works(c, Do(c, s, step))) < Sum(Works(c, s))
  {
    var s' := Do(c, s, step);
    var ws, ws' := Works(c, s), Works(c, s');
    assert ws' == ws[b := Work(c, s', b)];
    SumUpdate(ws, b, Work(c, s', b));
  }

  /** Any sweep can be brought to its end without uploads. */
  lemma {:induction false} RunToEnd(c: Sweep, s: Sweeping, t: Sweeping, k: Key) returns (u: Sweeping)
    requires Reaches(c, s, t) && Shaped(c, t) && k !in t.blobs
    ensures Reaches(c, s, u) && Done(c, u) && k !in u.blobs && u.uploaded == t.uploaded
    decreases Sum(Works(c, t))
  {
    if b :| 0 <= b < |c.batches| && (t.workers[b].Deleting? || t.at[b] < |c.batches[b]|) {
      var step := if t.workers[b].Deleting? then Delete(b) else Check(b);
      TakeStep(c, s, t, step);
      WorkShrinks(c, t, b, step);
      u := RunToEnd(c, s, Do(c, t, step), k);
    } else {
      u := t;
    }
  }

  /** A page can be worked on up to a position without uploads; keys that were to be deleted still are. */
  lemma {:induction false} RunToKey(c: Sweep, s: Sweeping, t: Sweeping, b: nat, i: nat) returns (u: Sweeping)
    requires Reaches(c, s, t) && Shaped(c, t) && b < |c.batches| && i < |c.batches[b]| && t.at[b] <= i
    requires c.FateOf(t.blobs, c.batches[b][i]) == Deleted
    ensures Reaches(c, s, u) && Shaped(c, u) && u.at[b] == i && u.workers[b].Idle?
    ensures c.FateOf(u.blobs, c.batches[b][i]) == Deleted
    decreases Work(c, t, b)
  {
    if t.at[b] == i && t.workers[b].Idle? {
      u := t;
    } else {
      var step := if t.workers[b].Deleting? then Delete(b) else Check(b);
      TakeStep(c, s, t, step);
      u := RunToKey(c, s, Do(c, t, step), b, i);
    }
  }

  /** Every key uploaded during a sweep that runs to its end is there in the end. */
  ghost predicate UploadsKept(c: Sweep, blobs: BlobStore) {
    forall t :: Reaches(c, Start(c, blobs), t) && Done(c, t) ==> forall k :: k in t.uploaded ==> k in t.blobs
  }

  /** No listed key is up for deletion. */
  predicate NothingToDelete(c: Sweep, blobs: BlobStore) {
    c.dryRun || forall b, i :: 0 <= b < |c.batches| && 0 <= i < |c.batches[b]| ==> c.FateOf(blobs, c.batches[b][i]) != Deleted
  }

  /** With nothing to delete, nobody is ever about to delete anything, and uploads stay. */
  ghost predicate NeverDeletes(c: Sweep, blobs: BlobStore, s: Sweeping) {
    && Shaped(c, s)
    && (forall b :: 0 <= b < |s.workers| ==> s.workers[b].Idle?)
    && (forall k :: c.Newer(blobs, k) ==> c.Newer(s.blobs, k))
    && (forall k :: k in s.uploaded ==> k in s.blobs)
  }

  lemma {:induction false} NothingIsDeleted(c: Sweep, blobs: BlobStore, steps: seq<SweepStep>)
    requires NothingToDelete(c, blobs) && IsSweep(c, Start(c, blobs), steps)
    ensures NeverDeletes(c, blobs, SweptBy(c, Start(c, blobs), steps))
    decreases |steps|
  {
    if steps != [] {
      var n := |steps| - 1;
      NothingIsDeleted(c, blobs, steps[..n]);
      var t, step := SweptBy(c, Start(c, blobs), steps[..n]), steps[n];
      if step.Check? { assert c.dryRun || c.FateOf(blobs, c.batches[step.b][t.at[step.b]]) != Deleted; }
    }
  }

  /** A listed key that is up for deletion can be lost: it is looked up, uploaded and deleted. */
  lemma UploadIsLost(c: Sweep, blobs: BlobStore, b: nat, i: nat) returns (t: Sweeping)
    requires !c.dryRun && b < |c.batches| && i < |c.batches[b]| && c.FateOf(blobs, c.batches[b][i]) == Deleted
    ensures Reaches(c, Start(c, blobs), t) && Done(c, t) && c.batches[b][i] in t.uploaded && c.batches[b][i] !in t.blobs
  {
    var s, k := Start(c, blobs), c.batches[b][i];
    assert IsSweep(c, s, []) && SweptBy(c, s, []) == s;
    var u := RunToKey(c, s, s, b, i);
    TakeStep(c, s, u, Check(b));
    var v := Do(c, u, Check(b));
    var put := Put(k, Blob(c.indexTime + 1, 1, 0));
    TakeStep(c, s, v, put);
    var w := Do(c, v, put);
    TakeStep(c, s, w, Delete(b));
    t := RunToEnd(c, s, Do(c, w, Delete(b)), k);
  }

  /** Uploads are safe from a sweep, whatever the interleaving, exactly if it has nothing to delete. */
  lemma UploadsKeptIff(c: Sweep, blobs: BlobStore)
    ensures UploadsKept(c, blobs) <==> NothingToDelete(c, blobs)
  {
    if NothingToDelete(c, blobs) {
      forall t | Reaches(c, Start(c, blobs), t) && Done(c, t) ensures forall k :: k in t.uploaded ==> k in t.blobs {
        var steps :| IsSweep(c, Start(c, blobs), steps) && SweptBy(c, Start(c, blobs), steps) == t;
        NothingIsDeleted(c, blobs, steps);
      }
    } else {
      var b, i :| 0 <= b < |c.batches| && 0 <= i < |c.batches[b]| && c.FateOf(blobs, c.batches[b][i]) == Deleted;
      var t := UploadIsLost(c, blobs, b, i);
    }
  }

  // ---------------------------------------------------------------- the sweep itself

  datatype Report = Report(scanned: nat, indexed: nat, moreRecent: nat, deleted: nat)

  class Sweeper {
    const c: Sweep
    var blobs: BlobStore
    var at: seq<nat>
    var workers: seq<Worker>
    var indexed: nat
    var moreRecent: nat
    var deleted: nat
    ghost var uploaded: set<Key>

    ghost function Snapshot(): (s: Sweeping)
      reads this
    {
      Sweeping(blobs, at, workers, indexed, moreRecent, deleted, uploaded)
    }

    constructor (c: Sweep, blobs: BlobStore)
      ensures this.c == c && Snapshot() == Start(c, blobs)
    {
      this.c, this.blobs := c, blobs;
      at, workers := seq(|c.batches|, _ => 0), seq(|c.batches|, _ => Idle);
      indexed, moreRecent, deleted, uploaded := 0, 0, 0, {};
    }

    /** Looks up the next key of a page and its blob's attributes, and decides. */
    method CheckKey(b: nat)
      requires CanStep(c, Snapshot(), Check(b))
      modifies this
      ensures Snapshot() == Do(c, old(Snapshot()), Check(b))
    {
      var key := c.batches[b][at[b]];
      at := at[b := at[b] + 1];
      if key in c.kv { indexed := indexed + 1; return; }
      if key !in c.blind && key in blobs && c.indexTime < blobs[key].updated { moreRecent := moreRecent + 1; return; }
      deleted := deleted + 1;
      if c.dryRun { return; }
      workers := workers[b := Deleting(key)];
    }

    /** Carries out the deletion a page's worker has decided. */
    method DeleteKey(b: nat)
      requires CanStep(c, Snapshot(), Delete(b))
      modifies this
      ensures Snapshot() == Do(c, old(Snapshot()), Delete(b))
    {
      blobs := blobs - {workers[b].key};
      workers := workers[b := Idle];
    }

    /** Somebody uploads data meanwhile, and writes its blob unless a good one is there. */
    method Upload(key: Key, blob: Blob)
      requires CanStep(c, Snapshot(), Put(key, blob))
      modifies this
      ensures Snapshot() == Do(c, old(Snapshot()), Put(key, blob))
    {
      if !Reuses(blobs, key, blob) { blobs := blobs[key := blob]; }
      uploaded := uploaded + {key};
    }

    /** The next step of a page's worker. */
    method WorkOn(b: nat, ghost s: Sweeping)
      requires Reaches(c, s, Snapshot()) && Shaped(c, Snapshot())
      requires b < |c.batches| && (workers[b].Deleting? || at[b] < |c.batches[b]|)
      modifies this
      ensures Reaches(c, s, Snapshot()) && Shaped(c, Snapshot()) && Sum(Works(c, Snapshot())) < old(Sum(Works(c, Snapshot())))
    {
      ghost var now := Snapshot();
      var step := if workers[b].Deleting? then Delete(b) else Check(b);
      TakeStep(c, s, now, step);
      WorkShrinks(c, now, b, step);
      if step.Delete? { DeleteKey(b); } else { CheckKey(b); }
    }

    /** Any number of uploads. */
    method Meanwhile(ghost s: Sweeping)
      requires Reaches(c, s, Snapshot())
      modifies this
      ensures Reaches(c, s, Snapshot()) && at == old(at) && workers == old(workers)
    {
      var n: nat := *;
      while n > 0
        invariant Reaches(c, s, Snapshot()) && at == old(at) && workers == old(workers)
      {
        var key: Key, blob: Blob := *, *;
        if c.indexTime < blob.updated {
          TakeStep(c, s, Snapshot(), Put(key, blob));
          Upload(key, blob);
        }
        n := n - 1;
      }
    }

    /** Uploads, and then a step of some page that is not through, if there is one. */
    method Round(ghost s: Sweeping) returns (more: bool)
      requires Reaches(c, s, Snapshot()) && Shaped(c, Snapshot())
      modifies this
      ensures Reaches(c, s, Snapshot()) && Shaped(c, Snapshot())
      ensures more ==> Sum(Works(c, Snapshot())) < old(Sum(Works(c, Snapshot())))
      ensures !more ==> Done(c, Snapshot())
    {
      Meanwhile(s);
      assert Works(c, Snapshot()) == old(Works(c, Snapshot()));
      if b :| 0 <= b < |c.batches| && (workers[b].Deleting? || at[b] < |c.batches[b]|) {
        WorkOn(b, s);
        more := true;
      } else {
        more := false;
      }
    }
  }

  /** Pages of keys are worked on in parallel, while blobs are uploaded: some run of lookups, deletions and
      uploads, brought to its end. */
  method ScanBlobs(c: Sweep, blobs: BlobStore) returns (r: Report, blobs': BlobStore, ghost t: Sweeping)
    ensures Reaches(c, Start(c, blobs), t) && Done(c, t) && Swept(c, blobs, t) && Reported(c, blobs, t)
    ensures blobs' == t.blobs
    ensures r.scanned == |Flatten(c.batches)| == r.indexed + r.moreRecent + r.deleted
    ensures r.indexed == t.indexed && r.moreRecent == t.moreRecent && r.deleted == t.deleted
  {
    ghost var s := Start(c, blobs);
    var w := new Sweeper(c, blobs);
    assert IsSweep(c, s, []) && SweptBy(c, s, []) == s;
    var more := true;
    while more
      invariant w.c == c && Shaped(c, w.Snapshot()) && Reaches(c, s, w.Snapshot())
      invariant !more ==> Done(c, w.Snapshot())
      decreases more, Sum(Works(c, w.Snapshot()))
    {
      more := w.Round(s);
    }
    t := w.Snapshot();
    ReachedIsSwept(c, blobs, t);
    return Report(w.indexed + w.moreRecent + w.deleted, w.indexed, w.moreRecent, w.deleted), w.blobs, t;
  }

  lemma ReachedIsSwept(c: Sweep, blobs: BlobStore, t: Sweeping)
    requires Reaches(c, Start(c, blobs), t) && Done(c, t)
    ensures Swept(c, blobs, t) && Reported(c, blobs, t)
  {
    var s := Start(c, blobs);
    var steps :| IsSweep(c, s, steps) && SweptBy(c, s, steps) == t;
    StartIsOk(c, blobs);
    SweepKeepsOk(c, blobs, s, steps);
    DoneIsSwept(c, blobs, t);
    StartIsCounted(c, blobs);
    SweepKeepsCounted(c, blobs, s, steps);
    DoneIsReported(c, blobs, t);
  }

  // ---------------------------------------------------------------- from the bundles to the surviving blobs

  lemma SameCount(listed: seq<Key>, a: map<Key, bool>, b: map<Key, bool>)
    requires forall k :: k in a <==> k in b
    ensures Count(listed, InIndex(a)) == Count(listed, InIndex(b))
  {
    CountMonotone(listed, InIndex(a), InIndex(b));
    CountMonotone(listed, InIndex(b), InIndex(a));
  }

  /** A successful build of the index, up to its last chunk, and its reload: exactly the roots and leaves of the
      bundles that were scanned, and the time that was written. */
  method BuildAndLoad(cfg: Config, ghost steps: seq<Step>, kv: map<Key, bool>, header: string, parses: string -> bool,
                      chunkSize: nat, texts: seq<Text>, ghost chunks: seq<seq<Key>>)
    returns (index: map<Key, bool>, time: string)
    requires cfg.Harmless() && IsRun(cfg, steps) && AllDone(cfg, After(cfg, steps))
    requires After(cfg, steps).kv == kv && After(cfg, steps).chunks == chunks && TextsOf(header, texts, chunks)
    requires Plain(header) && parses(header) && forall k :: k in kv ==> Plain(k)
    requires chunkSize > 0
    ensures time == header && forall k :: (k in index <==> k in kv) && (k in index <==> cfg.IsRoot(k) || cfg.IsLeaf(k))
  {
    RunKeepsChunked(cfg, steps);
    forall k ensures k in kv <==> cfg.IsRoot(k) || cfg.IsLeaf(k) { MarkIsComplete(cfg, steps, k); }
    ghost var chunks';
    var kv', texts';
    kv', texts', chunks' := UploadRest(header, kv, chunkSize, texts, chunks);
    forall c, i | 0 <= c < |chunks'| && 0 <= i < |chunks'[c]| ensures Plain(chunks'[c][i]) {
      InFlatten(chunks', chunks'[c][i]);
    }
    var ok: bool;
    index, time, ok := LoadAll(header, texts', parses, chunks');
    forall k ensures k in index <==> k in kv { assert k in index <==> k in Flatten(chunks'); }
  }

  /** A successful build of the index followed by a sweep: every root and leaf of every bundle that was
      scanned survives if it was there, and so does every blob newer than the time in the index that was loaded,
      if its attributes can be looked up. */
  method IndexThenSweep(cfg: Config, ghost steps: seq<Step>, kv: map<Key, bool>, header: string, parses: string -> bool, timeOf: string -> int,
                        chunkSize: nat, texts: seq<Text>, ghost chunks: seq<seq<Key>>,
                        dryRun: bool, blobs: BlobStore, batches: seq<seq<Key>>, blind: set<Key>)
    returns (r: Report, blobs': BlobStore)
    requires cfg.Harmless() && IsRun(cfg, steps) && AllDone(cfg, After(cfg, steps))
    requires After(cfg, steps).kv == kv && After(cfg, steps).chunks == chunks && TextsOf(header, texts, chunks)
    requires Plain(header) && parses(header) && forall k :: k in kv ==> Plain(k)
    requires chunkSize > 0
    ensures r.scanned == |Flatten(batches)| == r.indexed + r.moreRecent + r.deleted && r.indexed == Count(Flatten(batches), InIndex(kv))
    ensures forall k :: k in blobs && (cfg.IsRoot(k) || cfg.IsLeaf(k) || (timeOf(header) < blobs[k].updated && k !in blind)) ==> k in blobs'
    ensures !dryRun ==> forall k :: k in Flatten(batches) && k in blobs' ==>
      cfg.IsRoot(k) || cfg.IsLeaf(k) || timeOf(header) < blobs'[k].updated
  {
    var index, time := BuildAndLoad(cfg, steps, kv, header, parses, chunkSize, texts, chunks);
    var sweep := Sweep(index, timeOf(time), dryRun, batches, blind);
    ghost var t;
    r, blobs', t := ScanBlobs(sweep, blobs);
    SameCount(Flatten(batches), index, kv);
    forall k | k in blobs && (cfg.IsRoot(k) || cfg.IsLeaf(k) || (timeOf(header) < blobs[k].updated && k !in blind)) ensures k in blobs' {
      assert SweptKey(sweep, blobs, t, k);
    }
    forall k | !dryRun && k in Flatten(batches) && k in blobs'
      ensures cfg.IsRoot(k) || cfg.IsLeaf(k) || timeOf(header) < blobs'[k].updated
    {
      assert SweptKey(sweep, blobs, t, k);
    }
  }
}
