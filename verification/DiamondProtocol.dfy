/** The diamond workflow as a transition system over a store with atomic create-if-absent.

    Any number of splitters, committers and cancelers take steps in any interleaving, and any of
    them may crash at any point. The only synchronisation is that metadata is never overwritten and
    that file lists are written before the record that points to them. */
module DiamondProtocol {
  import opened Names
  import opened Merge
  import opened Chunking

  type Id = string // a KSUID

  /** The number of entries in one index file. */
  const PER_FILE: nat := 1000

  function Lists(files: seq<Entry>): (r: seq<seq<Entry>>) { Chunks(files, PER_FILE) }

  datatype Key =
    | DiamondRunning(d: Id)
    | DiamondDone(d: Id)
    | SplitRunning(d: Id, split: Component)
    | SplitDone(d: Id, split: Component)
    | SplitList(d: Id, split: Component, gen: Id, i: nat)
    | BundleDescriptor(bundle: Id)
    | BundleList(bundle: Id, i: nat)

  /** A split descriptor as a commit collects it. */
  datatype SplitRec = SplitRec(split: Component, gen: Id, count: nat)

  datatype Obj =
    | Initialized
    | Canceled
    | Done(bundle: Id, splits: seq<SplitRec>)
    | SplitStarted
    | SplitFinal(gen: Id, count: nat)
    | Bundle(count: nat)
    | Files(entries: seq<Entry>)

  type Store = map<Key, Obj>

  /** History: what an upload attempt set out to write, under its own generation. */
  datatype Attempt = Attempt(pid: nat, d: Id, split: Component, files: seq<Entry>)

  /** History: what a commit read and merged, under its own bundle ID. */
  datatype Commit = Commit(pid: nat, d: Id, mode: Mode, splits: seq<SplitRec>, order: seq<(nat, nat)>,
                           batches: seq<Batch>, out: seq<Entry>)

  datatype SplitPhase = SStart | SFinalAbsent | SReady | SNotDone | SMustCreate | SGo | SUploading(gen: Id, next: nat)
  datatype CommitPhase =
    | CStart | CFinalAbsent
    | CCollecting(due: set<Component>, splits: seq<SplitRec>)   // due: splits that were done when the listing began
    | CReading(splits: seq<SplitRec>, order: seq<(nat, nat)>, batches: seq<Batch>)
    | CUploading(bundle: Id, next: nat)
    | CDescribed(bundle: Id)
  datatype CancelPhase = XStart | XFinalAbsent | XReady

  datatype Proc =
    | Splitter(d: Id, split: Component, sp: SplitPhase)
    | Committer(d: Id, mode: Mode, cp: CommitPhase)
    | Canceler(d: Id, xp: CancelPhase)

  datatype State = State(store: Store, procs: map<nat, Proc>, attempts: map<Id, Attempt>, commits: map<Id, Commit>)

  datatype Step =
    | CreateDiamond(d: Id)
    | Spawn(p: nat, proc: Proc)
    | CheckFinal(p: nat)                                  // is there a terminal diamond record?
    | CheckInitial(p: nat)                                // is there an initialized one?
    | CheckSplitDone(p: nat)
    | CheckSplitRunning(p: nat)
    | CreateSplit(p: nat)
    | BeginUpload(p: nat, gen: Id, files: seq<Entry>)
    | PutSplitList(p: nat)
    | PutSplitDone(p: nat)
    | Collect(p: nat, split: Component)
    | BeginMerge(p: nat)
    | ReadList(p: nat, j: nat, i: nat)
    | FinishMerge(p: nat, bundle: Id, out: seq<Entry>)
    | PutBundleList(p: nat)
    | PutBundleDescriptor(p: nat)
    | PutDone(p: nat)
    | PutCanceled(p: nat)
    | Crash(p: nat)

  function Init(): (s: State) { State(map[], map[], map[], map[]) }

  predicate Starting(proc: Proc) {
    match proc
    case Splitter(_, split, sp) => sp.SStart? && Proper(split)
    case Committer(_, _, cp) => cp.CStart?
    case Canceler(_, xp) => xp.XStart?
  }

  /** What one upload lists: each path once, cleanly named, with its upload time. */
  ghost predicate UploadableFiles(files: seq<Entry>) {
    && (forall i :: 0 <= i < |files| ==> Uploadable(files[i].name) && files[i].stamp > 0)
    && (forall i, j :: 0 <= i < j < |files| ==> files[i].name != files[j].name)
  }

  /** Every list of every collected split has been read once. */
  ghost predicate AllRead(splits: seq<SplitRec>, order: seq<(nat, nat)>) {
    forall j: nat, i: nat :: j < |splits| && i < splits[j].count ==> (j, i) in order
  }

  predicate SameFile(a: Entry, b: Entry) { a.hash == b.hash && a.name == b.name && a.size == b.size }

  /** The merged index, written out in some order, with fresh timestamps. */
  ghost predicate IsDump(m: Index, out: seq<Entry>) {
    && (forall i :: 0 <= i < |out| ==> out[i].name in m)
    && (forall i :: 0 <= i < |out| ==> SameFile(out[i], m[out[i].name].file))
    && (forall i, j :: 0 <= i < j < |out| ==> out[i].name != out[j].name)
    && (forall k :: k in m ==> exists i :: 0 <= i < |out| && out[i].name == k)
  }

  function MergeOf(mode: Mode, batches: seq<Batch>): (r: Merged) {
    MergeAll(mode, DefaultDeconflicter(mode), Arrivals(batches))
  }

  ghost predicate Enabled(s: State, step: Step) {
    match step
    case CreateDiamond(_) => true
    case Spawn(p, proc) => p !in s.procs && Starting(proc)
    case CheckFinal(p) => p in s.procs && Starting(s.procs[p])
    case CheckInitial(p) => p in s.procs && match s.procs[p] {
        case Splitter(_, _, sp) => sp.SFinalAbsent?
        case Committer(_, _, cp) => cp.CFinalAbsent?
        case Canceler(_, xp) => xp.XFinalAbsent?
      }
    case CheckSplitDone(p) => p in s.procs && s.procs[p].Splitter? && s.procs[p].sp.SReady?
    case CheckSplitRunning(p) => p in s.procs && s.procs[p].Splitter? && s.procs[p].sp.SNotDone?
    case CreateSplit(p) => p in s.procs && s.procs[p].Splitter? && s.procs[p].sp.SMustCreate?
    case BeginUpload(p, gen, files) =>
      p in s.procs && s.procs[p].Splitter? && s.procs[p].sp.SGo? && gen !in s.attempts && UploadableFiles(files)
    case PutSplitList(p) => p in s.procs && s.procs[p].Splitter? && s.procs[p].sp.SUploading?
      && s.procs[p].sp.gen in s.attempts && s.procs[p].sp.next < |Lists(s.attempts[s.procs[p].sp.gen].files)|
    case PutSplitDone(p) => p in s.procs && s.procs[p].Splitter? && s.procs[p].sp.SUploading?
      && s.procs[p].sp.gen in s.attempts && s.procs[p].sp.next == |Lists(s.attempts[s.procs[p].sp.gen].files)|
    case Collect(p, split) => p in s.procs && s.procs[p].Committer? && s.procs[p].cp.CCollecting?
      && SplitDone(s.procs[p].d, split) in s.store && s.store[SplitDone(s.procs[p].d, split)].SplitFinal?
      && (forall j :: 0 <= j < |s.procs[p].cp.splits| ==> s.procs[p].cp.splits[j].split != split)
    case BeginMerge(p) => p in s.procs && s.procs[p].Committer? && s.procs[p].cp.CCollecting?
    case ReadList(p, j, i) => p in s.procs && s.procs[p].Committer? && s.procs[p].cp.CReading?
      && j < |s.procs[p].cp.splits| && i < s.procs[p].cp.splits[j].count && (j, i) !in s.procs[p].cp.order
    case FinishMerge(p, bundle, out) => p in s.procs && s.procs[p].Committer? && s.procs[p].cp.CReading?
      && AllRead(s.procs[p].cp.splits, s.procs[p].cp.order) && bundle !in s.commits
      && (MergeOf(s.procs[p].mode, s.procs[p].cp.batches).Merged? ==>
            IsDump(MergeOf(s.procs[p].mode, s.procs[p].cp.batches).index, out))
    case PutBundleList(p) => p in s.procs && s.procs[p].Committer? && s.procs[p].cp.CUploading?
      && s.procs[p].cp.bundle in s.commits && s.procs[p].cp.next < |Lists(s.commits[s.procs[p].cp.bundle].out)|
    case PutBundleDescriptor(p) => p in s.procs && s.procs[p].Committer? && s.procs[p].cp.CUploading?
      && s.procs[p].cp.bundle in s.commits && s.procs[p].cp.next == |Lists(s.commits[s.procs[p].cp.bundle].out)|
    case PutDone(p) => p in s.procs && s.procs[p].Committer? && s.procs[p].cp.CDescribed?
      && s.procs[p].cp.bundle in s.commits
    case PutCanceled(p) => p in s.procs && s.procs[p].Canceler? && s.procs[p].xp.XReady?
    case Crash(p) => p in s.procs
  }

  /** Atomic create-if-absent: a second writer fails and leaves the first record in place. */
  function Put(st: Store, k: Key, o: Obj): (r: Store)
    ensures k in r && forall k' :: k' in st ==> k' in r && r[k'] == st[k']
    ensures forall k' :: k' in r ==> k' in st || (k' == k && r[k'] == o)
  {
    if k in st then st else st[k := o]
  }

  function Ended(s: State, p: nat): (r: State) { s.(procs := s.procs - {p}) }

  function Moved(s: State, p: nat, proc: Proc): (r: State) { s.(procs := s.procs[p := proc]) }

  /** Writes a record; the process goes on as `proc` only if it was the first to write it. */
  function PutOrEnd(s: State, p: nat, k: Key, o: Obj, proc: Proc): (r: State) {
    if k in s.store then Ended(s, p) else Moved(s, p, proc).(store := Put(s.store, k, o))
  }

  function AfterFinalCheck(proc: Proc): (r: Proc) {
    match proc
    case Splitter(d, split, _) => Splitter(d, split, SFinalAbsent)
    case Committer(d, mode, _) => Committer(d, mode, CFinalAbsent)
    case Canceler(d, _) => Canceler(d, XFinalAbsent)
  }

  function DoneSplits(st: Store, d: Id): (r: set<Component>) { set k | k in st && k.SplitDone? && k.d == d :: k.split }

  function AfterInitialCheck(st: Store, proc: Proc): (r: Proc) {
    match proc
    case Splitter(d, split, _) => Splitter(d, split, SReady)
    case Committer(d, mode, _) => Committer(d, mode, CCollecting(DoneSplits(st, d), []))
    case Canceler(d, _) => Canceler(d, XReady)
  }

  function Next(s: State, step: Step): (s': State)
    requires Enabled(s, step)
  {
    match step
    case CreateDiamond(d) => s.(store := Put(s.store, DiamondRunning(d), Initialized))
    case Spawn(p, proc) => Moved(s, p, proc)
    case CheckFinal(p) =>
      if DiamondDone(s.procs[p].d) in s.store then Ended(s, p) else Moved(s, p, AfterFinalCheck(s.procs[p]))
    case CheckInitial(p) =>
      if DiamondRunning(s.procs[p].d) !in s.store then Ended(s, p) else Moved(s, p, AfterInitialCheck(s.store, s.procs[p]))
    case CheckSplitDone(p) =>
      var Splitter(d, split, _) := s.procs[p];
      if SplitDone(d, split) in s.store then Ended(s, p) else Moved(s, p, Splitter(d, split, SNotDone))
    case CheckSplitRunning(p) =>
      var Splitter(d, split, _) := s.procs[p];
      Moved(s, p, Splitter(d, split, if SplitRunning(d, split) in s.store then SGo else SMustCreate))
    case CreateSplit(p) =>
      var Splitter(d, split, _) := s.procs[p];
      PutOrEnd(s, p, SplitRunning(d, split), SplitStarted, Splitter(d, split, SGo))
    case BeginUpload(p, gen, files) =>
      var Splitter(d, split, _) := s.procs[p];
      Moved(s, p, Splitter(d, split, SUploading(gen, 0))).(attempts := s.attempts[gen := Attempt(p, d, split, files)])
    case PutSplitList(p) =>
      var Splitter(d, split, SUploading(gen, next)) := s.procs[p];
      PutOrEnd(s, p, SplitList(d, split, gen, next), Files(Lists(s.attempts[gen].files)[next]),
               Splitter(d, split, SUploading(gen, next + 1)))
    case PutSplitDone(p) =>
      var Splitter(d, split, SUploading(gen, next)) := s.procs[p];
      Ended(s, p).(store := Put(s.store, SplitDone(d, split), SplitFinal(gen, next)))
    case Collect(p, split) =>
      var Committer(d, mode, CCollecting(due, splits)) := s.procs[p];
      var final := s.store[SplitDone(d, split)];
      Moved(s, p, Committer(d, mode, CCollecting(due, splits + [SplitRec(split, final.gen, final.count)])))
    case BeginMerge(p) =>
      var Committer(d, mode, CCollecting(_, splits)) := s.procs[p];
      if splits == [] then Ended(s, p) else Moved(s, p, Committer(d, mode, CReading(splits, [], [])))
    case ReadList(p, j, i) =>
      var Committer(d, mode, CReading(splits, order, batches)) := s.procs[p];
      var k := SplitList(d, splits[j].split, splits[j].gen, i);
      if k !in s.store || !s.store[k].Files? then Ended(s, p)
      else Moved(s, p, Committer(d, mode, CReading(splits, order + [(j, i)],
                                                   batches + [Batch(splits[j].split, s.store[k].entries)])))
    case FinishMerge(p, bundle, out) =>
      var Committer(d, mode, CReading(splits, order, batches)) := s.procs[p];
      if !MergeOf(mode, batches).Merged? then Ended(s, p)
      else Moved(s, p, Committer(d, mode, CUploading(bundle, 0)))
           .(commits := s.commits[bundle := Commit(p, d, mode, splits, order, batches, out)])
    case PutBundleList(p) =>
      var Committer(d, mode, CUploading(bundle, next)) := s.procs[p];
      PutOrEnd(s, p, BundleList(bundle, next), Files(Lists(s.commits[bundle].out)[next]),
               Committer(d, mode, CUploading(bundle, next + 1)))
    case PutBundleDescriptor(p) =>
      var Committer(d, mode, CUploading(bundle, next)) := s.procs[p];
      PutOrEnd(s, p, BundleDescriptor(bundle), Bundle(next), Committer(d, mode, CDescribed(bundle)))
    case PutDone(p) =>
      var Committer(d, mode, CDescribed(bundle)) := s.procs[p];
      Ended(s, p).(store := Put(s.store, DiamondDone(d), Done(bundle, s.commits[bundle].splits)))
    case PutCanceled(p) =>
      Ended(s, p).(store := Put(s.store, DiamondDone(s.procs[p].d), Canceled))
    case Crash(p) => Ended(s, p)
  }

  /** A run: steps that are each enabled where they are taken. */
  ghost predicate IsRun(s: State, steps: seq<Step>)
    decreases |steps|
  {
    steps == [] || (Enabled(s, steps[0]) && IsRun(Next(s, steps[0]), steps[1..]))
  }

  ghost function After(s: State, steps: seq<Step>): (r: State)
    requires IsRun(s, steps)
    decreases |steps|
  {
    if steps == [] then s else After(Next(s, steps[0]), steps[1..])
  }

  // ---------------------------------------------------------------- what every step keeps

  /** The lists of an attempt are the ones it set out to write, and nobody else writes there. */
  ghost predicate SplitListOk(s: State, k: Key)
    requires k.SplitList? && k in s.store
  {
    && k.gen in s.attempts
    && var at := s.attempts[k.gen];
    && at.d == k.d && at.split == k.split
    && k.i < |Lists(at.files)| && s.store[k] == Files(Lists(at.files)[k.i])
  }

  /** A split record names one attempt, all of whose lists are stored. */
  ghost predicate SplitRecOk(s: State, d: Id, r: SplitRec) {
    && r.gen in s.attempts
    && s.attempts[r.gen].d == d && s.attempts[r.gen].split == r.split
    && r.count == |Lists(s.attempts[r.gen].files)|
    && (forall i: nat :: i < r.count ==> SplitList(d, r.split, r.gen, i) in s.store)
    && SplitDone(d, r.split) in s.store && s.store[SplitDone(d, r.split)] == SplitFinal(r.gen, r.count)
  }

  ghost predicate BundleListOk(s: State, k: Key)
    requires k.BundleList? && k in s.store
  {
    && k.bundle in s.commits
    && k.i < |Lists(s.commits[k.bundle].out)|
    && s.store[k] == Files(Lists(s.commits[k.bundle].out)[k.i])
  }

  /** A bundle descriptor counts the lists of its commit, and they are all stored. */
  ghost predicate BundleOk(s: State, b: Id) {
    && b in s.commits
    && BundleDescriptor(b) in s.store
    && s.store[BundleDescriptor(b)] == Bundle(|Lists(s.commits[b].out)|)
    && (forall i: nat :: i < |Lists(s.commits[b].out)| ==> BundleList(b, i) in s.store)
  }

  /** What has been read: for each position, the list of that split's recorded attempt. */
  ghost predicate ReadsOk(s: State, d: Id, splits: seq<SplitRec>, order: seq<(nat, nat)>, batches: seq<Batch>) {
    && (forall j :: 0 <= j < |splits| ==> SplitRecOk(s, d, splits[j]))
    && (forall j, k :: 0 <= j < k < |splits| ==> splits[j].split != splits[k].split)
    && |order| == |batches|
    && (forall x, y :: 0 <= x < y < |order| ==> order[x] != order[y])
    && (forall x :: 0 <= x < |order| ==> ReadOk(s, splits, order[x], batches[x]))
  }

  ghost predicate ReadOk(s: State, splits: seq<SplitRec>, at: (nat, nat), batch: Batch) {
    && at.0 < |splits|
    && splits[at.0].gen in s.attempts
    && at.1 < |Lists(s.attempts[splits[at.0].gen].files)|
    && batch == Batch(splits[at.0].split, Lists(s.attempts[splits[at.0].gen].files)[at.1])
  }

  ghost predicate CommitOk(s: State, c: Commit) {
    && c.splits != []
    && ReadsOk(s, c.d, c.splits, c.order, c.batches)
    && AllRead(c.splits, c.order)
    && MergeOf(c.mode, c.batches).Merged?
    && IsDump(MergeOf(c.mode, c.batches).index, c.out)
  }

  ghost predicate RecordOk(s: State, k: Key)
    requires k in s.store
  {
    match k
    case SplitList(_, _, _, _) => SplitListOk(s, k)
    case SplitDone(d, split) => s.store[k].SplitFinal? && SplitRecOk(s, d, SplitRec(split, s.store[k].gen, s.store[k].count))
    case BundleList(_, _) => BundleListOk(s, k)
    case BundleDescriptor(b) => BundleOk(s, b)
    case DiamondDone(d) => s.store[k].Canceled?
      || (s.store[k].Done? && BundleOk(s, s.store[k].bundle)
          && s.commits[s.store[k].bundle].d == d && s.commits[s.store[k].bundle].splits == s.store[k].splits)
    case DiamondRunning(_) => s.store[k].Initialized?
    case SplitRunning(_, _) => s.store[k].SplitStarted?
  }

  ghost predicate AttemptOk(a: Attempt) { Proper(a.split) && UploadableFiles(a.files) }

  ghost predicate ProcOk(s: State, p: nat, proc: Proc) {
    match proc
    case Splitter(d, split, sp) => Proper(split) && (sp.SUploading? ==>
        && sp.gen in s.attempts
        && s.attempts[sp.gen].d == d && s.attempts[sp.gen].split == split
        && sp.next <= |Lists(s.attempts[sp.gen].files)|
        && (forall i: nat :: i < sp.next ==> SplitList(d, split, sp.gen, i) in s.store))
    case Committer(d, mode, cp) =>
      (match cp
       case CCollecting(_, splits) => ReadsOk(s, d, splits, [], [])
       case CReading(splits, order, batches) => splits != [] && ReadsOk(s, d, splits, order, batches)
       case CUploading(b, next) => b in s.commits && s.commits[b].d == d && next <= |Lists(s.commits[b].out)|
         && (forall i: nat :: i < next ==> BundleList(b, i) in s.store)
       case CDescribed(b) => BundleOk(s, b) && s.commits[b].d == d
       case _ => true)
    case Canceler(_, _) => true
  }

  ghost predicate Inv(s: State) {
    && (forall k {:trigger RecordOk(s, k)} :: k in s.store ==> RecordOk(s, k))
    && (forall g {:trigger AttemptOk(s.attempts[g])} :: g in s.attempts ==> AttemptOk(s.attempts[g]))
    && (forall b {:trigger CommitOk(s, s.commits[b])} :: b in s.commits ==> CommitOk(s, s.commits[b]))
    && (forall p {:trigger ProcOk(s, p, s.procs[p])} :: p in s.procs ==> ProcOk(s, p, s.procs[p]))
  }

  /** The store and the histories only ever grow. */
  ghost predicate Grows(s: State, s': State) {
    && (forall k :: k in s.store ==> k in s'.store && s'.store[k] == s.store[k])
    && (forall g :: g in s.attempts ==> g in s'.attempts && s'.attempts[g] == s.attempts[g])
    && (forall b :: b in s.commits ==> b in s'.commits && s'.commits[b] == s.commits[b])
  }

  lemma NextGrows(s: State, step: Step)
    requires Enabled(s, step)
    ensures Grows(s, Next(s, step))
  {
  }

  lemma OthersWait(s: State, step: Step, p: nat)
    requires Enabled(s, step) && p in Next(s, step).procs && (step.CreateDiamond? || step.p != p)
    ensures p in s.procs && Next(s, step).procs[p] == s.procs[p]
  {
  }

  lemma ReadsGrow(s: State, s': State, d: Id, splits: seq<SplitRec>, order: seq<(nat, nat)>, batches: seq<Batch>)
    requires Grows(s, s') && ReadsOk(s, d, splits, order, batches)
    ensures ReadsOk(s', d, splits, order, batches)
  {
    forall j | 0 <= j < |splits| ensures SplitRecOk(s', d, splits[j]) {
      assert SplitRecOk(s, d, splits[j]);
    }
    forall x | 0 <= x < |order| ensures ReadOk(s', splits, order[x], batches[x]) {
      assert ReadOk(s, splits, order[x], batches[x]);
    }
  }

  lemma RecordGrows(s: State, s': State, k: Key)
    requires Grows(s, s') && k in s.store && RecordOk(s, k)
    ensures RecordOk(s', k)
  {
  }

  lemma CommitGrows(s: State, s': State, c: Commit)
    requires Grows(s, s') && CommitOk(s, c)
    ensures CommitOk(s', c)
  {
    ReadsGrow(s, s', c.d, c.splits, c.order, c.batches);
  }

  lemma ProcGrows(s: State, s': State, p: nat, proc: Proc)
    requires Grows(s, s') && ProcOk(s, p, proc)
    ensures ProcOk(s', p, proc)
  {
    if proc.Committer? {
      match proc.cp
      case CCollecting(_, splits) => ReadsGrow(s, s', proc.d, splits, [], []);
      case CReading(splits, order, batches) => ReadsGrow(s, s', proc.d, splits, order, batches);
      case _ =>
    }
  }

  /** A step is safe once the one record, history entry and process it touches are. */
  lemma KeepInv(s: State, s': State, p: nat)
    requires Inv(s) && Grows(s, s')
    requires forall k :: k in s'.store && k !in s.store ==> RecordOk(s', k)
    requires forall g :: g in s'.attempts && g !in s.attempts ==> AttemptOk(s'.attempts[g])
    requires forall b :: b in s'.commits && b !in s.commits ==> CommitOk(s', s'.commits[b])
    requires p in s'.procs ==> ProcOk(s', p, s'.procs[p])
    requires forall q :: q in s'.procs && q != p ==> q in s.procs && s'.procs[q] == s.procs[q]
    ensures Inv(s')
  {
    forall k | k in s'.store ensures RecordOk(s', k) {
      if k in s.store { assert RecordOk(s, k); RecordGrows(s, s', k); }
    }
    forall g | g in s'.attempts ensures AttemptOk(s'.attempts[g]) {
      if g in s.attempts { assert AttemptOk(s.attempts[g]); }
    }
    forall b | b in s'.commits ensures CommitOk(s', s'.commits[b]) {
      if b in s.commits { assert CommitOk(s, s.commits[b]); CommitGrows(s, s', s.commits[b]); }
    }
    forall q | q in s'.procs ensures ProcOk(s', q, s'.procs[q]) {
      if q != p { assert ProcOk(s, q, s.procs[q]); ProcGrows(s, s', q, s.procs[q]); }
    }
  }

  predicate SplitStep(step: Step) {
    step.CheckSplitDone? || step.CheckSplitRunning? || step.CreateSplit?
  }

  predicate UploadStep(step: Step) {
    step.BeginUpload? || step.PutSplitList?
  }

  lemma UploadStepKeepsInv(s: State, step: Step)
    requires Inv(s) && Enabled(s, step) && UploadStep(step)
    ensures Inv(Next(s, step))
  {
    var p := step.p;
    var s' := Next(s, step);
    assert ProcOk(s, p, s.procs[p]);
    NextGrows(s, step);
    KeepInv(s, s', p);
  }

  lemma SplitStepKeepsInv(s: State, step: Step)
    requires Inv(s) && Enabled(s, step) && SplitStep(step)
    ensures Inv(Next(s, step))
  {
    var p := step.p;
    var s' := Next(s, step);
    assert ProcOk(s, p, s.procs[p]);
    NextGrows(s, step);
    KeepInv(s, s', p);
  }

  lemma PutSplitDoneKeepsInv(s: State, p: nat)
    requires Inv(s) && Enabled(s, PutSplitDone(p))
    ensures Inv(Next(s, PutSplitDone(p)))
  {
    var s' := Next(s, PutSplitDone(p));
    assert ProcOk(s, p, s.procs[p]);
    NextGrows(s, PutSplitDone(p));
    KeepInv(s, s', p);
  }

  lemma CollectKeepsInv(s: State, p: nat, split: Component)
    requires Inv(s) && Enabled(s, Collect(p, split))
    ensures Inv(Next(s, Collect(p, split)))
  {
    var s' := Next(s, Collect(p, split));
    assert ProcOk(s, p, s.procs[p]);
    NextGrows(s, Collect(p, split));
    var Committer(d, mode, CCollecting(_, splits)) := s.procs[p];
    assert RecordOk(s, SplitDone(d, split));
    ReadsGrow(s, s', d, splits, [], []);
    KeepInv(s, s', p);
  }

  lemma ReadListKeepsInv(s: State, p: nat, j: nat, i: nat)
    requires Inv(s) && Enabled(s, ReadList(p, j, i))
    ensures Inv(Next(s, ReadList(p, j, i)))
  {
    var s' := Next(s, ReadList(p, j, i));
    assert ProcOk(s, p, s.procs[p]);
    NextGrows(s, ReadList(p, j, i));
    var Committer(d, mode, CReading(splits, order, batches)) := s.procs[p];
    var k := SplitList(d, splits[j].split, splits[j].gen, i);
    ReadFindsList(s, p, j, i);
    assert RecordOk(s, k);
    ReadsGrow(s, s', d, splits, order, batches);
    var order', batches' := order + [(j, i)], batches + [Batch(splits[j].split, s.store[k].entries)];
    forall x | 0 <= x < |order'| ensures ReadOk(s', splits, order'[x], batches'[x]) {
      if x < |order| { assert ReadOk(s', splits, order[x], batches[x]); }
    }
    KeepInv(s, s', p);
  }

  /** A commit never finds a list of a collected split missing. */
  lemma ReadFindsList(s: State, p: nat, j: nat, i: nat)
    requires Inv(s) && Enabled(s, ReadList(p, j, i))
    ensures var r := s.procs[p].cp.splits[j];
      var k := SplitList(s.procs[p].d, r.split, r.gen, i);
      && k in s.store && r.gen in s.attempts && i < |Lists(s.attempts[r.gen].files)|
      && s.store[k] == Files(Lists(s.attempts[r.gen].files)[i])
  {
    assert ProcOk(s, p, s.procs[p]);
    var r := s.procs[p].cp.splits[j];
    assert SplitRecOk(s, s.procs[p].d, r);
    assert RecordOk(s, SplitList(s.procs[p].d, r.split, r.gen, i));
  }

  lemma FinishMergeKeepsInv(s: State, p: nat, bundle: Id, out: seq<Entry>)
    requires Inv(s) && Enabled(s, FinishMerge(p, bundle, out))
    ensures Inv(Next(s, FinishMerge(p, bundle, out)))
  {
    var s' := Next(s, FinishMerge(p, bundle, out));
    assert ProcOk(s, p, s.procs[p]);
    NextGrows(s, FinishMerge(p, bundle, out));
    var Committer(d, mode, CReading(splits, order, batches)) := s.procs[p];
    ReadsGrow(s, s', d, splits, order, batches);
    KeepInv(s, s', p);
  }

  predicate BundleStep(step: Step) {
    step.PutBundleList? || step.PutBundleDescriptor?
  }

  predicate EndStep(step: Step) {
    step.PutDone? || step.PutCanceled? || step.BeginMerge?
  }

  lemma EndStepKeepsInv(s: State, step: Step)
    requires Inv(s) && Enabled(s, step) && EndStep(step)
    ensures Inv(Next(s, step))
  {
    var p := step.p;
    var s' := Next(s, step);
    assert ProcOk(s, p, s.procs[p]);
    NextGrows(s, step);
    KeepInv(s, s', p);
  }

  lemma PutBundleListKeepsInv(s: State, p: nat)
    requires Inv(s) && Enabled(s, PutBundleList(p))
    ensures Inv(Next(s, PutBundleList(p)))
  {
    assert ProcOk(s, p, s.procs[p]);
    NextGrows(s, PutBundleList(p));
    KeepInv(s, Next(s, PutBundleList(p)), p);
  }

  lemma PutBundleDescriptorKeepsInv(s: State, p: nat)
    requires Inv(s) && Enabled(s, PutBundleDescriptor(p))
    ensures Inv(Next(s, PutBundleDescriptor(p)))
  {
    assert ProcOk(s, p, s.procs[p]);
    NextGrows(s, PutBundleDescriptor(p));
    KeepInv(s, Next(s, PutBundleDescriptor(p)), p);
  }

  lemma BundleStepKeepsInv(s: State, step: Step)
    requires Inv(s) && Enabled(s, step) && BundleStep(step)
    ensures Inv(Next(s, step))
  {
    if step.PutBundleList? { PutBundleListKeepsInv(s, step.p); } else { PutBundleDescriptorKeepsInv(s, step.p); }
  }

  lemma OtherStepKeepsInv(s: State, step: Step)
    requires Inv(s) && Enabled(s, step)
    requires step.CreateDiamond? || step.Spawn? || step.CheckFinal? || step.CheckInitial? || step.Crash?
    ensures Inv(Next(s, step))
  {
    var s' := Next(s, step);
    NextGrows(s, step);
    if step.CreateDiamond? {
      if 0 in s.procs {
        assert ProcOk(s, 0, s.procs[0]);
        ProcGrows(s, s', 0, s.procs[0]);
      }
      KeepInv(s, s', 0);
    } else {
      var p := step.p;
      if p in s.procs { assert ProcOk(s, p, s.procs[p]); }
      KeepInv(s, s', p);
    }
  }

  lemma StepKeepsInv(s: State, step: Step)
    requires Inv(s) && Enabled(s, step)
    ensures Inv(Next(s, step))
  {
    if SplitStep(step) { SplitStepKeepsInv(s, step); }
    else if UploadStep(step) { UploadStepKeepsInv(s, step); }
    else if BundleStep(step) { BundleStepKeepsInv(s, step); }
    else if EndStep(step) { EndStepKeepsInv(s, step); }
    else {
      match step
      case PutSplitDone(p) => PutSplitDoneKeepsInv(s, p);
      case Collect(p, split) => CollectKeepsInv(s, p, split);
      case ReadList(p, j, i) => ReadListKeepsInv(s, p, j, i);
      case FinishMerge(p, bundle, out) => FinishMergeKeepsInv(s, p, bundle, out);
      case _ => OtherStepKeepsInv(s, step);
    }
  }

  /** Safety over whole runs: every reachable state satisfies the invariant. */
  lemma {:induction false} RunKeepsInv(s: State, steps: seq<Step>)
    requires Inv(s) && IsRun(s, steps)
    ensures Inv(After(s, steps)) && Grows(s, After(s, steps))
    decreases |steps|
  {
    if steps != [] {
      StepKeepsInv(s, steps[0]);
      NextGrows(s, steps[0]);
      RunKeepsInv(Next(s, steps[0]), steps[1..]);
    }
  }

  // ---------------------------------------------------------------- main results over every run

  /** A terminal diamond record, once written, is the same in every later state of the run. */
  lemma TerminalRecordIsFinal(steps: seq<Step>, more: seq<Step>, d: Id)
    requires IsRun(Init(), steps) && IsRun(After(Init(), steps), more)
    requires DiamondDone(d) in After(Init(), steps).store
    ensures var now, later := After(Init(), steps), After(After(Init(), steps), more);
      && DiamondDone(d) in later.store && later.store[DiamondDone(d)] == now.store[DiamondDone(d)]
      && (now.store[DiamondDone(d)].Canceled? || now.store[DiamondDone(d)].Done?)
  {
    RunKeepsInv(Init(), steps);
    RunKeepsInv(After(Init(), steps), more);
    assert RecordOk(After(Init(), steps), DiamondDone(d));
  }

  /** The entries of a bundle's stored lists, in order. */
  ghost predicate BundleHolds(st: Store, b: Id, entries: seq<Entry>) {
    && BundleDescriptor(b) in st && st[BundleDescriptor(b)].Bundle?
    && st[BundleDescriptor(b)].count == |Lists(entries)|
    && (forall i: nat :: i < |Lists(entries)| ==>
          BundleList(b, i) in st && st[BundleList(b, i)] == Files(Lists(entries)[i]))
    && (forall i: nat :: i >= |Lists(entries)| ==> BundleList(b, i) !in st)
  }

  /** A committed diamond names a bundle that is stored in full: its descriptor and exactly the lists it counts. */
  lemma CommittedBundleIsComplete(steps: seq<Step>, d: Id)
    requires IsRun(Init(), steps)
    requires DiamondDone(d) in After(Init(), steps).store && After(Init(), steps).store[DiamondDone(d)].Done?
    ensures var s := After(Init(), steps);
      var b := s.store[DiamondDone(d)].bundle;
      b in s.commits && BundleHolds(s.store, b, s.commits[b].out)
  {
    RunKeepsInv(Init(), steps);
    var s := After(Init(), steps);
    assert RecordOk(s, DiamondDone(d));
    var b := s.store[DiamondDone(d)].bundle;
    forall i: nat
      ensures BundleList(b, i) in s.store <==> i < |Lists(s.commits[b].out)|
      ensures BundleList(b, i) in s.store ==> s.store[BundleList(b, i)] == Files(Lists(s.commits[b].out)[i])
    {
      if BundleList(b, i) in s.store { assert RecordOk(s, BundleList(b, i)); }
    }
  }

  /** The lists stored for a finished split are exactly and completely those of the attempt that finished it. */
  lemma FinishedSplitIsOneAttempt(steps: seq<Step>, d: Id, split: Component)
    requires IsRun(Init(), steps)
    requires SplitDone(d, split) in After(Init(), steps).store
    ensures var s := After(Init(), steps);
      && s.store[SplitDone(d, split)].SplitFinal?
      && var gen, count := s.store[SplitDone(d, split)].gen, s.store[SplitDone(d, split)].count;
      && gen in s.attempts && s.attempts[gen].d == d && s.attempts[gen].split == split
      && count == |Lists(s.attempts[gen].files)|
      && (forall i: nat :: SplitList(d, split, gen, i) in s.store <==> i < count)
      && (forall i: nat :: i < count ==> s.store[SplitList(d, split, gen, i)] == Files(Lists(s.attempts[gen].files)[i]))
  {
    RunKeepsInv(Init(), steps);
    var s := After(Init(), steps);
    assert RecordOk(s, SplitDone(d, split));
    var gen := s.store[SplitDone(d, split)].gen;
    forall i: nat | SplitList(d, split, gen, i) in s.store
      ensures i < |Lists(s.attempts[gen].files)|
      ensures s.store[SplitList(d, split, gen, i)] == Files(Lists(s.attempts[gen].files)[i])
    {
      assert RecordOk(s, SplitList(d, split, gen, i));
    }
  }

  // ---------------------------------------------------------------- splits that were done in time

  predicate Has(splits: seq<SplitRec>, split: Component) { exists j :: 0 <= j < |splits| && splits[j].split == split }

  /** The listing a merge starts from has every split that was done when it began. */
  predicate NoGap(s: State, step: Step) {
    step.BeginMerge? && step.p in s.procs && s.procs[step.p].Committer? && s.procs[step.p].cp.CCollecting? ==>
      forall split :: split in s.procs[step.p].cp.due ==> Has(s.procs[step.p].cp.splits, split)
  }

  ghost predicate RunHasNoGap(s: State, steps: seq<Step>)
    requires IsRun(s, steps)
    decreases |steps|
  {
    steps == [] || (NoGap(s, steps[0]) && RunHasNoGap(Next(s, steps[0]), steps[1..]))
  }

  /** A committer that is listing is bound to list the split, and one that is past that has listed it. */
  predicate Bound(proc: Proc, d: Id, split: Component) {
    proc.Committer? && proc.d == d ==>
      && (proc.cp.CCollecting? ==> split in proc.cp.due)
      && (proc.cp.CReading? ==> Has(proc.cp.splits, split))
  }

  /** The split is done, every committer of the diamond is bound to it, and every new commit has it. */
  ghost predicate InTime(s: State, d: Id, split: Component, before: set<Id>) {
    && SplitDone(d, split) in s.store
    && (forall p :: p in s.procs ==> Bound(s.procs[p], d, split))
    && (forall b :: b in s.commits && b !in before && s.commits[b].d == d ==> Has(s.commits[b].splits, split))
  }

  /** A committer that begins to list is bound to list what is done. */
  lemma ActorBound(s: State, step: Step, d: Id, split: Component)
    requires Enabled(s, step) && NoGap(s, step) && !step.CreateDiamond? && step.p in Next(s, step).procs && SplitDone(d, split) in s.store
    requires step.p in s.procs ==> Bound(s.procs[step.p], d, split)
    ensures Bound(Next(s, step).procs[step.p], d, split)
  {
  }

  lemma NewCommit(s: State, step: Step, b: Id)
    requires Enabled(s, step) && b in Next(s, step).commits && b !in s.commits
    ensures step.FinishMerge? && s.procs[step.p].cp.CReading?
    ensures Next(s, step).commits[b].d == s.procs[step.p].d && Next(s, step).commits[b].splits == s.procs[step.p].cp.splits
  {
  }

  lemma StepKeepsInTime(s: State, step: Step, d: Id, split: Component, before: set<Id>)
    requires Enabled(s, step) && NoGap(s, step) && InTime(s, d, split, before)
    ensures InTime(Next(s, step), d, split, before)
  {
    var s' := Next(s, step);
    NextGrows(s, step);
    forall p | p in s'.procs ensures Bound(s'.procs[p], d, split) {
      if step.CreateDiamond? || step.p != p { OthersWait(s, step, p); } else { ActorBound(s, step, d, split); }
    }
    forall b | b in s'.commits && b !in before && s'.commits[b].d == d ensures Has(s'.commits[b].splits, split) {
      if b !in s.commits { NewCommit(s, step, b); }
    }
  }

  /** If a split is done before any committer of the diamond begins to list, every bundle committed later in
      the run has the split, as long as listings have no gap. */
  lemma {:induction false} DoneInTimeIsCommitted(s: State, steps: seq<Step>, d: Id, split: Component, before: set<Id>)
    requires IsRun(s, steps) && RunHasNoGap(s, steps) && InTime(s, d, split, before)
    ensures InTime(After(s, steps), d, split, before)
    decreases |steps|
  {
    if steps != [] {
      StepKeepsInTime(s, steps[0], d, split, before);
      DoneInTimeIsCommitted(Next(s, steps[0]), steps[1..], d, split, before);
    }
  }

  /** So a diamond that becomes done by a commit that had not begun to list when the split was done records
      that split. */
  lemma CommittedHasEarlySplit(steps: seq<Step>, more: seq<Step>, d: Id, split: Component)
    requires IsRun(Init(), steps) && IsRun(After(Init(), steps), more) && RunHasNoGap(After(Init(), steps), more)
    requires var s := After(Init(), steps);
      && SplitDone(d, split) in s.store
      && (forall p :: p in s.procs && s.procs[p].Committer? && s.procs[p].d == d ==> !s.procs[p].cp.CCollecting? && !s.procs[p].cp.CReading?)
    requires var s, t := After(Init(), steps), After(After(Init(), steps), more);
      DiamondDone(d) in t.store && t.store[DiamondDone(d)].Done? && t.store[DiamondDone(d)].bundle !in s.commits
    ensures var t := After(After(Init(), steps), more); Has(t.store[DiamondDone(d)].splits, split)
  {
    var s, t := After(Init(), steps), After(After(Init(), steps), more);
    DoneInTimeIsCommitted(s, more, d, split, s.commits.Keys);
    RunKeepsInv(Init(), steps);
    RunKeepsInv(s, more);
    assert RecordOk(t, DiamondDone(d));
  }
}
