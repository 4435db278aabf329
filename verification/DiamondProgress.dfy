/** What the diamond workflow gets done: from every reachable state a split can be finished, and a diamond
    committed or canceled; and what its processes refuse to do once a record says that all is over. */
module DiamondProgress {
  import opened Names
  import opened Merge
  import opened MergeOrder
  import opened Chunking
  import opened DiamondProtocol
  import opened DiamondOutcome

  // ---------------------------------------------------------------- what the last step of each process leaves

  /** A described commit leaves its record: the bundle, and the splits that were merged into it. */
  lemma CommitIsRecorded(s: State, p: nat, b: Id)
    requires Inv(s) && p in s.procs && s.procs[p].Committer? && s.procs[p].cp == CDescribed(b) && DiamondDone(s.procs[p].d) !in s.store
    ensures Enabled(s, PutDone(p))
    ensures var t := Next(s, PutDone(p));
      && t.store == s.store[DiamondDone(s.procs[p].d) := Done(b, s.commits[b].splits)]
      && p !in t.procs && t.commits == s.commits && t.attempts == s.attempts
  {
    assert ProcOk(s, p, s.procs[p]);
  }

  /** A canceler that found the diamond open leaves a canceled record. */
  lemma CancelIsRecorded(s: State, p: nat)
    requires p in s.procs && s.procs[p].Canceler? && s.procs[p].xp == XReady && DiamondDone(s.procs[p].d) !in s.store
    ensures Enabled(s, PutCanceled(p))
    ensures var t := Next(s, PutCanceled(p));
      && t.store == s.store[DiamondDone(s.procs[p].d) := Canceled]
      && p !in t.procs && t.commits == s.commits && t.attempts == s.attempts
  {
  }

  /** A splitter that has written all its lists leaves its done record, which names its attempt and counts them. */
  lemma SplitIsRecorded(s: State, p: nat, gen: Id)
    requires Inv(s) && p in s.procs && s.procs[p].Splitter? && gen in s.attempts
    requires s.procs[p].sp == SUploading(gen, |Lists(s.attempts[gen].files)|) && SplitDone(s.procs[p].d, s.procs[p].split) !in s.store
    ensures Enabled(s, PutSplitDone(p))
    ensures var t := Next(s, PutSplitDone(p));
      && t.store == s.store[SplitDone(s.procs[p].d, s.procs[p].split) := SplitFinal(gen, |Lists(s.attempts[gen].files)|)]
      && p !in t.procs && t.commits == s.commits && t.attempts == s.attempts
  {
  }

  /** A process that meets a terminal record, at its first look or when it would write its own, ends and writes nothing. */
  lemma TerminalRefuses(s: State, step: Step)
    requires Enabled(s, step) && (step.CheckFinal? || step.PutDone? || step.PutCanceled?)
    requires DiamondDone(s.procs[step.p].d) in s.store
    ensures step.p !in Next(s, step).procs && Next(s, step).store == s.store && Next(s, step).commits == s.commits
  {
  }

  /** The record that the next write of a process would create. */
  function WouldWrite(s: State, step: Step): (k: Key)
    requires Enabled(s, step) && (step.CreateSplit? || step.PutSplitList? || step.PutBundleList? || step.PutBundleDescriptor?)
  {
    var proc := s.procs[step.p];
    match step
    case CreateSplit(_) => SplitRunning(proc.d, proc.split)
    case PutSplitList(_) => SplitList(proc.d, proc.split, proc.sp.gen, proc.sp.next)
    case PutBundleList(_) => BundleList(proc.cp.bundle, proc.cp.next)
    case PutBundleDescriptor(_) => BundleDescriptor(proc.cp.bundle)
  }

  /** A process that finds its record written by another ends and leaves it; otherwise it has written it and goes on. */
  lemma FirstWriterGoesOn(s: State, step: Step)
    requires Enabled(s, step) && (step.CreateSplit? || step.PutSplitList? || step.PutBundleList? || step.PutBundleDescriptor?)
    ensures var t, k := Next(s, step), WouldWrite(s, step);
      && (k in s.store ==> step.p !in t.procs && t.store == s.store)
      && (k !in s.store ==> step.p in t.procs && t.store.Keys == s.store.Keys + {k})
  {
  }

  /** A committer whose merge gives up ends, and nothing is committed. */
  lemma GivesUp(s: State, p: nat, bundle: Id, out: seq<Entry>)
    requires Enabled(s, FinishMerge(p, bundle, out)) && !MergeOf(s.procs[p].mode, s.procs[p].cp.batches).Merged?
    ensures p !in Next(s, FinishMerge(p, bundle, out)).procs && Next(s, FinishMerge(p, bundle, out)).commits == s.commits
    ensures Next(s, FinishMerge(p, bundle, out)).store == s.store
  {
  }

  // ---------------------------------------------------------------- what is over stays over

  /** The key is part of this diamond, and is not its initial record. */
  predicate Inside(k: Key, d: Id) {
    (k.SplitRunning? || k.SplitDone? || k.SplitList? || k.DiamondDone?) && k.d == d
  }

  /** Nothing was written for the diamond: no record, no attempt, no commit. */
  ghost predicate NothingNew(s: State, t: State, d: Id) {
    && (forall k :: k in t.store && Inside(k, d) ==> k in s.store)
    && (forall g :: g in t.attempts && t.attempts[g].d == d ==> g in s.attempts)
    && (forall b :: b in t.commits && t.commits[b].d == d ==> b in s.commits)
  }

  /** The diamond has its terminal record, and nobody who works on it looked before. */
  ghost predicate Closed(s: State, d: Id) {
    DiamondDone(d) in s.store && forall p :: p in s.procs && s.procs[p].d == d ==> Starting(s.procs[p])
  }

  /** The process has found the diamond's initial record. */
  predicate Admitted(proc: Proc) {
    match proc
    case Splitter(_, _, sp) => !sp.SStart? && !sp.SFinalAbsent?
    case Committer(_, _, cp) => !cp.CStart? && !cp.CFinalAbsent?
    case Canceler(_, xp) => xp.XReady?
  }

  /** The step is one of an admitted process of this diamond. */
  predicate ByAdmitted(s: State, step: Step, d: Id) {
    !step.CreateDiamond? && !step.Spawn? && step.p in s.procs && s.procs[step.p].d == d && Admitted(s.procs[step.p])
  }

  /** Only such a process writes for a diamond. */
  lemma RecordBy(s: State, step: Step, k: Key, d: Id)
    requires Enabled(s, step) && k in Next(s, step).store && k !in s.store && Inside(k, d)
    ensures ByAdmitted(s, step, d)
  {
  }

  lemma AttemptBy(s: State, step: Step, g: Id)
    requires Enabled(s, step) && g in Next(s, step).attempts && g !in s.attempts
    ensures ByAdmitted(s, step, Next(s, step).attempts[g].d)
  {
  }

  lemma CommitBy(s: State, step: Step, b: Id)
    requires Enabled(s, step) && b in Next(s, step).commits && b !in s.commits
    ensures ByAdmitted(s, step, Next(s, step).commits[b].d)
  {
  }

  /** How a step may leave a process. */
  predicate Proceeds(s: State, was: Proc, proc: Proc) {
    && proc.d == was.d
    && if Starting(was) then DiamondDone(proc.d) !in s.store && !Admitted(proc)
       else Admitted(was) || DiamondRunning(proc.d) in s.store
  }

  lemma SplitterProceeds(s: State, step: Step)
    requires Enabled(s, step) && !step.CreateDiamond? && !step.Spawn? && s.procs[step.p].Splitter? && step.p in Next(s, step).procs
    ensures Proceeds(s, s.procs[step.p], Next(s, step).procs[step.p])
  {
  }

  lemma OtherProceeds(s: State, step: Step)
    requires Enabled(s, step) && !step.CreateDiamond? && !step.Spawn? && !s.procs[step.p].Splitter? && step.p in Next(s, step).procs
    ensures Proceeds(s, s.procs[step.p], Next(s, step).procs[step.p])
  {
  }

  /** A process is as it was, or is new, or has taken a step: its first, which an open diamond allows, its
      second, which a created one allows, or one as an admitted process. */
  lemma ProcBy(s: State, step: Step, p: nat)
    requires Enabled(s, step) && p in Next(s, step).procs
    ensures var proc := Next(s, step).procs[p];
      || (p in s.procs && (proc == s.procs[p] || Proceeds(s, s.procs[p], proc)))
      || (step.Spawn? && Starting(proc))
  {
    if step.CreateDiamond? || step.p != p {
      OthersWait(s, step, p);
    } else if !step.Spawn? {
      if s.procs[p].Splitter? { SplitterProceeds(s, step); } else { OtherProceeds(s, step); }
    }
  }

  lemma StepKeepsClosed(s: State, step: Step, d: Id)
    requires Enabled(s, step) && Closed(s, d)
    ensures Closed(Next(s, step), d) && NothingNew(s, Next(s, step), d)
  {
    var t := Next(s, step);
    NextGrows(s, step);
    forall k | k in t.store && Inside(k, d) ensures k in s.store { if k !in s.store { RecordBy(s, step, k, d); } }
    forall g | g in t.attempts && t.attempts[g].d == d ensures g in s.attempts { if g !in s.attempts { AttemptBy(s, step, g); } }
    forall b | b in t.commits && t.commits[b].d == d ensures b in s.commits { if b !in s.commits { CommitBy(s, step, b); } }
    forall p | p in t.procs && t.procs[p].d == d ensures Starting(t.procs[p]) { ProcBy(s, step, p); }
  }

  lemma {:induction false} RunGrows(s: State, steps: seq<Step>)
    requires IsRun(s, steps)
    ensures Grows(s, After(s, steps))
    decreases |steps|
  {
    if steps != [] {
      NextGrows(s, steps[0]);
      RunGrows(Next(s, steps[0]), steps[1..]);
    }
  }

  /** No split is started or finished and nothing is committed for a diamond after that, whoever turns up. */
  lemma {:induction false} ClosedStaysClosed(s: State, steps: seq<Step>, d: Id)
    requires IsRun(s, steps) && Closed(s, d)
    ensures Closed(After(s, steps), d) && NothingNew(s, After(s, steps), d)
    decreases |steps|
  {
    if steps != [] {
      StepKeepsClosed(s, steps[0], d);
      ClosedStaysClosed(Next(s, steps[0]), steps[1..], d);
      RunGrows(Next(s, steps[0]), steps[1..]);
    }
  }

  /** The process is to upload the split, and has found no done record of it. */
  predicate Uploads(proc: Proc, d: Id, split: Component) {
    proc.Splitter? && proc.d == d && proc.split == split && (proc.sp.SNotDone? || proc.sp.SMustCreate? || proc.sp.SGo? || proc.sp.SUploading?)
  }

  ghost predicate SplitClosed(s: State, d: Id, split: Component) {
    SplitDone(d, split) in s.store && forall p :: p in s.procs ==> !Uploads(s.procs[p], d, split)
  }

  ghost predicate NoNewAttempt(s: State, t: State, d: Id, split: Component) {
    && (forall k :: k in t.store && k.SplitList? && k.d == d && k.split == split ==> k in s.store)
    && (forall g :: g in t.attempts && t.attempts[g].d == d && t.attempts[g].split == split ==> g in s.attempts)
  }

  /** Only such a process begins an attempt, or writes a list of the split. */
  lemma ListBy(s: State, step: Step, k: Key)
    requires Enabled(s, step) && k.SplitList? && k in Next(s, step).store && k !in s.store
    ensures step.PutSplitList? && Uploads(s.procs[step.p], k.d, k.split)
  {
  }

  lemma UploadBy(s: State, step: Step, g: Id)
    requires Enabled(s, step) && g in Next(s, step).attempts && g !in s.attempts
    ensures step.BeginUpload? && Uploads(s.procs[step.p], Next(s, step).attempts[g].d, Next(s, step).attempts[g].split)
  {
  }

  lemma UploaderBy(s: State, step: Step, p: nat, d: Id, split: Component)
    requires Enabled(s, step) && p in Next(s, step).procs && Uploads(Next(s, step).procs[p], d, split)
    ensures (p in s.procs && Uploads(s.procs[p], d, split)) || SplitDone(d, split) !in s.store
  {
  }

  lemma StepKeepsSplitClosed(s: State, step: Step, d: Id, split: Component)
    requires Enabled(s, step) && SplitClosed(s, d, split)
    ensures SplitClosed(Next(s, step), d, split) && NoNewAttempt(s, Next(s, step), d, split)
  {
    var t := Next(s, step);
    NextGrows(s, step);
    forall k | k in t.store && k.SplitList? && k.d == d && k.split == split ensures k in s.store { if k !in s.store { ListBy(s, step, k); } }
    forall g | g in t.attempts && t.attempts[g].d == d && t.attempts[g].split == split ensures g in s.attempts {
      if g !in s.attempts { UploadBy(s, step, g); }
    }
    forall p | p in t.procs ensures !Uploads(t.procs[p], d, split) { if Uploads(t.procs[p], d, split) { UploaderBy(s, step, p, d, split); } }
  }

  /** Nobody uploads a split again that was done when they looked. */
  lemma {:induction false} FinishedSplitIsNotRetried(s: State, steps: seq<Step>, d: Id, split: Component)
    requires IsRun(s, steps) && SplitClosed(s, d, split)
    ensures SplitClosed(After(s, steps), d, split) && NoNewAttempt(s, After(s, steps), d, split)
    decreases |steps|
  {
    if steps != [] {
      StepKeepsSplitClosed(s, steps[0], d, split);
      FinishedSplitIsNotRetried(Next(s, steps[0]), steps[1..], d, split);
      RunGrows(Next(s, steps[0]), steps[1..]);
    }
  }

  /** Nothing is written for a diamond that was not created. */
  ghost predicate CreatedFirst(s: State) {
    && (forall k, d :: k in s.store && Inside(k, d) ==> DiamondRunning(d) in s.store)
    && (forall p :: p in s.procs && Admitted(s.procs[p]) ==> DiamondRunning(s.procs[p].d) in s.store)
  }

  lemma {:induction false} RunKeepsCreatedFirst(s: State, steps: seq<Step>)
    requires CreatedFirst(s) && IsRun(s, steps)
    ensures CreatedFirst(After(s, steps))
    decreases |steps|
  {
    if steps != [] {
      StepKeepsCreatedFirst(s, steps[0]);
      RunKeepsCreatedFirst(Next(s, steps[0]), steps[1..]);
    }
  }

  lemma StepKeepsCreatedFirst(s: State, step: Step)
    requires CreatedFirst(s) && Enabled(s, step)
    ensures CreatedFirst(Next(s, step))
  {
    var t := Next(s, step);
    NextGrows(s, step);
    forall k, d | k in t.store && Inside(k, d) ensures DiamondRunning(d) in t.store {
      if k !in s.store { RecordBy(s, step, k, d); }
    }
    forall p | p in t.procs && Admitted(t.procs[p]) ensures DiamondRunning(t.procs[p].d) in t.store { ProcBy(s, step, p); }
  }

  // ---------------------------------------------------------------- runs that go on

  ghost predicate Leads(s: State, t: State) { exists steps :: IsRun(s, steps) && After(s, steps) == t }

  lemma {:induction false} RunAppend(s: State, a: seq<Step>, b: seq<Step>)
    requires IsRun(s, a) && IsRun(After(s, a), b)
    ensures IsRun(s, a + b) && After(s, a + b) == After(After(s, a), b)
    decreases |a|
  {
    if a == [] {
      assert a + b == b;
    } else {
      RunAppend(Next(s, a[0]), a[1..], b);
      assert (a + b)[1..] == a[1..] + b;
    }
  }

  /** One more step. */
  lemma Take(s: State, t: State, step: Step, u: State)
    requires Leads(s, t) && Enabled(t, step) && Next(t, step) == u
    ensures Leads(s, u)
  {
    var steps :| IsRun(s, steps) && After(s, steps) == t;
    assert IsRun(t, [step]) && After(t, [step]) == u by { assert [step][1..] == []; }
    RunAppend(s, steps, [step]);
  }

  lemma Stay(s: State)
    ensures Leads(s, s)
  {
    assert IsRun(s, []) && After(s, []) == s;
  }

  lemma Onward(s: State, t: State, u: State)
    requires Leads(s, t) && Leads(t, u)
    ensures Leads(s, u)
  {
    var a :| IsRun(s, a) && After(s, a) == t;
    var b :| IsRun(t, b) && After(t, b) == u;
    RunAppend(s, a, b);
  }

  lemma LeadsInv(s: State, t: State)
    requires Inv(s) && Leads(s, t)
    ensures Inv(t) && Grows(s, t)
  {
    var steps :| IsRun(s, steps) && After(s, steps) == t;
    RunKeepsInv(s, steps);
  }

  // ---------------------------------------------------------------- names that are not taken

  lemma {:induction false} FreshPid(ps: set<nat>) returns (p: nat)
    ensures forall q :: q in ps ==> q < p
  {
    p := 0;
    if ps != {} {
      var x :| x in ps;
      p := FreshPid(ps - {x});
      assert ps == ps - {x} + {x};
      if p <= x { p := x + 1; }
    }
  }

  lemma {:induction false} LongestId(ids: set<Id>) returns (n: nat)
    ensures forall x :: x in ids ==> |x| < n
  {
    n := 0;
    if ids != {} {
      var x :| x in ids;
      n := LongestId(ids - {x});
      assert ids == ids - {x} + {x};
      if n <= |x| { n := |x| + 1; }
    }
  }

  lemma FreshId(ids: set<Id>) returns (x: Id)
    ensures x !in ids
  {
    var n := LongestId(ids);
    x := seq(n, _ => 'x');
    assert |x| == n;
  }

  // ---------------------------------------------------------------- a split can be finished

  lemma MovedTwice(s: State, p: nat, a: Proc, b: Proc)
    ensures Moved(Moved(s, p, a), p, b) == Moved(s, p, b)
  {
    assert s.procs[p := a][p := b] == s.procs[p := b];
  }

  /** A new process of an open diamond gets past both checks. */
  lemma Admit(s: State, p: nat, proc: Proc)
    requires p !in s.procs && Starting(proc) && DiamondRunning(proc.d) in s.store && DiamondDone(proc.d) !in s.store
    ensures Leads(s, Moved(s, p, AfterInitialCheck(s.store, proc)))
  {
    var s1, s2, s3 := Moved(s, p, proc), Moved(s, p, AfterFinalCheck(proc)), Moved(s, p, AfterInitialCheck(s.store, proc));
    Stay(s);
    Take(s, s, Spawn(p, proc), s1);
    MovedTwice(s, p, proc, AfterFinalCheck(proc));
    Take(s, s1, CheckFinal(p), s2);
    MovedTwice(s, p, AfterFinalCheck(proc), AfterInitialCheck(s.store, proc));
    Take(s, s2, CheckInitial(p), s3);
  }

  /** And, for a split that is not done, has its running record there. */
  lemma AdmitSplit(s: State, p: nat, d: Id, split: Component) returns (t: State)
    requires p !in s.procs && Proper(split) && DiamondRunning(d) in s.store && DiamondDone(d) !in s.store && SplitDone(d, split) !in s.store
    ensures Leads(s, t) && t.attempts == s.attempts && t.commits == s.commits && t.procs == s.procs[p := Splitter(d, split, SGo)]
    ensures t.store == if SplitRunning(d, split) in s.store then s.store else s.store[SplitRunning(d, split) := SplitStarted]
  {
    var ready, open, must, go := Splitter(d, split, SReady), Splitter(d, split, SNotDone), Splitter(d, split, SMustCreate), Splitter(d, split, SGo);
    Admit(s, p, Splitter(d, split, SStart));
    MovedTwice(s, p, ready, open);
    Take(s, Moved(s, p, ready), CheckSplitDone(p), Moved(s, p, open));
    if SplitRunning(d, split) in s.store {
      t := Moved(s, p, go);
      MovedTwice(s, p, open, go);
      Take(s, Moved(s, p, open), CheckSplitRunning(p), t);
    } else {
      MovedTwice(s, p, open, must);
      Take(s, Moved(s, p, open), CheckSplitRunning(p), Moved(s, p, must));
      MovedTwice(s, p, must, go);
      t := Moved(s, p, go).(store := s.store[SplitRunning(d, split) := SplitStarted]);
      Take(s, Moved(s, p, must), CreateSplit(p), t);
    }
  }

  /** Nothing but lists under this generation is new. */
  ghost predicate OnlyLists(s: State, t: State, gen: Id) {
    && t.attempts == s.attempts && t.commits == s.commits
    && (forall k :: k in s.store ==> k in t.store && t.store[k] == s.store[k])
    && (forall k :: k in t.store && k !in s.store ==> k.SplitList? && k.gen == gen)
  }

  lemma WriteList(s: State, p: nat, d: Id, split: Component, gen: Id, n: nat) returns (t: State)
    requires p in s.procs && s.procs[p] == Splitter(d, split, SUploading(gen, n)) && gen in s.attempts
    requires n < |Lists(s.attempts[gen].files)| && SplitList(d, split, gen, n) !in s.store
    ensures Leads(s, t) && t.attempts == s.attempts && t.commits == s.commits
    ensures t.procs == s.procs[p := Splitter(d, split, SUploading(gen, n + 1))]
    ensures t.store == s.store[SplitList(d, split, gen, n) := Files(Lists(s.attempts[gen].files)[n])]
  {
    t := Next(s, PutSplitList(p));
    Stay(s);
    Take(s, s, PutSplitList(p), t);
  }

  /** The splitter writes its lists. */
  lemma {:induction false} WriteLists(s: State, p: nat, d: Id, split: Component, gen: Id, n: nat) returns (t: State)
    requires p in s.procs && s.procs[p] == Splitter(d, split, SUploading(gen, 0)) && gen in s.attempts
    requires n <= |Lists(s.attempts[gen].files)| && forall i: nat :: SplitList(d, split, gen, i) !in s.store
    ensures Leads(s, t) && OnlyLists(s, t, gen) && t.procs == s.procs[p := Splitter(d, split, SUploading(gen, n))]
    ensures forall i: nat :: SplitList(d, split, gen, i) in t.store ==> i < n
    decreases n
  {
    if n == 0 {
      Stay(s);
      t := s;
    } else {
      var s1 := WriteLists(s, p, d, split, gen, n - 1);
      t := WriteList(s1, p, d, split, gen, n - 1);
      Onward(s, s1, t);
    }
  }

  /** The split is done, by an attempt that set out to write these files. */
  ghost predicate SplitDoneWith(t: State, d: Id, split: Component, files: seq<Entry>) {
    && SplitDone(d, split) in t.store && t.store[SplitDone(d, split)].SplitFinal?
    && t.store[SplitDone(d, split)].gen in t.attempts && t.attempts[t.store[SplitDone(d, split)].gen].files == files
  }

  /** The diamond is open: created, and neither done nor canceled. */
  predicate IsOpen(s: State, d: Id) { DiamondRunning(d) in s.store && DiamondDone(d) !in s.store }

  /** A new attempt begins. */
  lemma BeginAttempt(s: State, p: nat, d: Id, split: Component, files: seq<Entry>, gen: Id) returns (t: State)
    requires Inv(s) && p !in s.procs && gen !in s.attempts
    requires IsOpen(s, d) && SplitDone(d, split) !in s.store && Proper(split) && UploadableFiles(files)
    ensures Leads(s, t) && Inv(t) && p in t.procs && t.procs[p] == Splitter(d, split, SUploading(gen, 0)) && t.commits == s.commits
    ensures t.attempts == s.attempts[gen := Attempt(p, d, split, files)]
    ensures t.store == if SplitRunning(d, split) in s.store then s.store else s.store[SplitRunning(d, split) := SplitStarted]
  {
    var s1 := AdmitSplit(s, p, d, split);
    t := Moved(s1, p, Splitter(d, split, SUploading(gen, 0))).(attempts := s1.attempts[gen := Attempt(p, d, split, files)]);
    Take(s, s1, BeginUpload(p, gen, files), t);
    LeadsInv(s, t);
  }

  /** No diamond and no split has got a record, but for running ones. */
  ghost predicate NothingDone(s: State, t: State) {
    && (forall e, x :: SplitDone(e, x) in t.store ==> SplitDone(e, x) in s.store)
    && (forall e :: DiamondDone(e) in t.store ==> DiamondDone(e) in s.store)
    && (forall e :: DiamondRunning(e) in s.store ==> DiamondRunning(e) in t.store)
  }

  /** A new attempt has written all its lists. */
  lemma RunAttempt(s: State, p: nat, d: Id, split: Component, files: seq<Entry>, gen: Id) returns (t: State)
    requires Inv(s) && p !in s.procs && gen !in s.attempts
    requires IsOpen(s, d) && SplitDone(d, split) !in s.store && Proper(split) && UploadableFiles(files)
    ensures Leads(s, t) && Inv(t) && p in t.procs && t.procs[p] == Splitter(d, split, SUploading(gen, |Lists(files)|)) && t.commits == s.commits
    ensures t.attempts == s.attempts[gen := Attempt(p, d, split, files)] && NothingDone(s, t)
  {
    NoListsYet(s, d, split, gen);
    var s1 := BeginAttempt(s, p, d, split, files, gen);
    t := WriteLists(s1, p, d, split, gen, |Lists(files)|);
    Onward(s, s1, t);
    LeadsInv(s1, t);
  }

  /** From every reachable state with an open diamond, a split that is not done can be, with any files; nothing
      else is finished meanwhile. */
  lemma CanFinishSplit(s: State, d: Id, split: Component, files: seq<Entry>) returns (t: State)
    requires Inv(s) && IsOpen(s, d) && SplitDone(d, split) !in s.store && Proper(split) && UploadableFiles(files)
    ensures Leads(s, t) && SplitDoneWith(t, d, split, files) && IsOpen(t, d) && t.commits == s.commits
    ensures forall e, x :: SplitDone(e, x) in t.store ==> SplitDone(e, x) in s.store || (e == d && x == split)
  {
    var p := FreshPid(s.procs.Keys);
    var gen := FreshId(s.attempts.Keys);
    var s1 := RunAttempt(s, p, d, split, files, gen);
    t := EndAttempt(s1, p, gen);
    Onward(s, s1, t);
  }

  lemma EndAttempt(s: State, p: nat, gen: Id) returns (t: State)
    requires Inv(s) && p in s.procs && s.procs[p].Splitter? && gen in s.attempts
    requires s.procs[p].sp == SUploading(gen, |Lists(s.attempts[gen].files)|) && SplitDone(s.procs[p].d, s.procs[p].split) !in s.store
    ensures Leads(s, t) && t.attempts == s.attempts && t.commits == s.commits
    ensures t.store == s.store[SplitDone(s.procs[p].d, s.procs[p].split) := SplitFinal(gen, |Lists(s.attempts[gen].files)|)]
  {
    SplitIsRecorded(s, p, gen);
    t := Next(s, PutSplitDone(p));
    Stay(s);
    Take(s, s, PutSplitDone(p), t);
  }

  lemma ListHasAttempt(s: State, k: Key)
    requires Inv(s) && k.SplitList? && k in s.store
    ensures k.gen in s.attempts
  {
    assert RecordOk(s, k);
  }

  lemma NoListsYet(s: State, d: Id, split: Component, gen: Id)
    requires Inv(s) && gen !in s.attempts
    ensures forall i: nat :: SplitList(d, split, gen, i) !in s.store
  {
    forall i: nat ensures SplitList(d, split, gen, i) !in s.store {
      if SplitList(d, split, gen, i) in s.store { ListHasAttempt(s, SplitList(d, split, gen, i)); }
    }
  }

  // ---------------------------------------------------------------- a diamond can be canceled

  /** From every state with an open diamond, the diamond can be canceled. */
  lemma CanCancel(s: State, d: Id) returns (t: State)
    requires IsOpen(s, d)
    ensures Leads(s, t) && t.store == s.store[DiamondDone(d) := Canceled] && t.procs == s.procs
  {
    var p := FreshPid(s.procs.Keys);
    Admit(s, p, Canceler(d, XStart));
    var s1 := Moved(s, p, Canceler(d, XReady));
    CancelIsRecorded(s1, p);
    t := Next(s1, PutCanceled(p));
    Take(s, s1, PutCanceled(p), t);
    assert s.procs[p := Canceler(d, XReady)] - {p} == s.procs;
  }

  // ---------------------------------------------------------------- a diamond can be committed

  /** What a commit collects for a split that is done. */
  function RecOf(st: Store, d: Id, split: Component): (r: SplitRec)
    requires SplitDone(d, split) in st && st[SplitDone(d, split)].SplitFinal?
  {
    SplitRec(split, st[SplitDone(d, split)].gen, st[SplitDone(d, split)].count)
  }

  /** The records of these splits, each once. */
  ghost predicate Collected(st: Store, d: Id, splits: set<Component>, recs: seq<SplitRec>) {
    && (forall j :: 0 <= j < |recs| ==> IsRec(st, d, splits, recs[j]))
    && (forall split :: split in splits ==> Has(recs, split))
    && (forall j, k :: 0 <= j < k < |recs| ==> recs[j].split != recs[k].split)
  }

  ghost predicate IsRec(st: Store, d: Id, splits: set<Component>, r: SplitRec) {
    r.split in splits && SplitDone(d, r.split) in st && st[SplitDone(d, r.split)] == SplitFinal(r.gen, r.count)
  }

  /** A committer at work on this diamond, and otherwise nothing has happened. */
  function At(s: State, p: nat, d: Id, mode: Mode, cp: CommitPhase): (t: State) { Moved(s, p, Committer(d, mode, cp)) }

  lemma AtTwice(s: State, p: nat, d: Id, mode: Mode, a: CommitPhase, b: CommitPhase)
    ensures Moved(At(s, p, d, mode, a), p, Committer(d, mode, b)) == At(s, p, d, mode, b)
  {
    MovedTwice(s, p, Committer(d, mode, a), Committer(d, mode, b));
  }

  lemma {:induction false} CollectSome(s: State, p: nat, d: Id, mode: Mode, due: set<Component>, splits: set<Component>) returns (recs: seq<SplitRec>)
    requires Inv(s) && forall split :: split in splits ==> SplitDone(d, split) in s.store
    ensures Collected(s.store, d, splits, recs)
    ensures Leads(At(s, p, d, mode, CCollecting(due, [])), At(s, p, d, mode, CCollecting(due, recs)))
    decreases |splits|
  {
    recs := [];
    if splits == {} {
      Stay(At(s, p, d, mode, CCollecting(due, [])));
    } else {
      var x :| x in splits;
      var before := CollectSome(s, p, d, mode, due, splits - {x});
      recs := CollectOne(s, p, d, mode, due, splits - {x}, before, x);
      assert splits - {x} + {x} == splits;
    }
  }

  lemma CollectOne(s: State, p: nat, d: Id, mode: Mode, due: set<Component>, splits: set<Component>, before: seq<SplitRec>, x: Component)
    returns (recs: seq<SplitRec>)
    requires Inv(s) && SplitDone(d, x) in s.store && x !in splits && Collected(s.store, d, splits, before)
    requires Leads(At(s, p, d, mode, CCollecting(due, [])), At(s, p, d, mode, CCollecting(due, before)))
    ensures Collected(s.store, d, splits + {x}, recs)
    ensures Leads(At(s, p, d, mode, CCollecting(due, [])), At(s, p, d, mode, CCollecting(due, recs)))
  {
    assert RecordOk(s, SplitDone(d, x));
    recs := before + [RecOf(s.store, d, x)];
    CollectedMore(s.store, d, splits, before, x);
    var s1, s2 := At(s, p, d, mode, CCollecting(due, before)), At(s, p, d, mode, CCollecting(due, recs));
    forall j | 0 <= j < |before| ensures before[j].split != x { assert IsRec(s.store, d, splits, before[j]); }
    AtTwice(s, p, d, mode, CCollecting(due, before), CCollecting(due, recs));
    Take(At(s, p, d, mode, CCollecting(due, [])), s1, Collect(p, x), s2);
  }

  lemma CollectedMore(st: Store, d: Id, splits: set<Component>, before: seq<SplitRec>, x: Component)
    requires x !in splits && Collected(st, d, splits, before) && SplitDone(d, x) in st && st[SplitDone(d, x)].SplitFinal?
    ensures Collected(st, d, splits + {x}, before + [RecOf(st, d, x)])
  {
    var recs := before + [RecOf(st, d, x)];
    forall j | 0 <= j < |recs| ensures IsRec(st, d, splits + {x}, recs[j]) {
      if j < |before| { assert IsRec(st, d, splits, before[j]); }
    }
    forall j, k | 0 <= j < k < |recs| ensures recs[j].split != recs[k].split {
      assert IsRec(st, d, splits, before[j]);
    }
    forall split | split in splits + {x} ensures Has(recs, split) {
      if split in splits {
        assert Has(before, split);
        var j :| 0 <= j < |before| && before[j].split == split;
        assert recs[j].split == split;
      } else {
        assert recs[|before|].split == split;
      }
    }
  }

  /** The lists still to be read. */
  ghost function Unread(splits: seq<SplitRec>, order: seq<(nat, nat)>): (r: set<(nat, nat)>) {
    set j: nat, i: nat | j < |splits| && i < splits[j].count && (j, i) !in order :: (j, i)
  }

  lemma {:induction false} ReadRest(s: State, p: nat, d: Id, mode: Mode, splits: seq<SplitRec>, order: seq<(nat, nat)>, batches: seq<Batch>)
    returns (order': seq<(nat, nat)>, batches': seq<Batch>)
    requires Inv(At(s, p, d, mode, CReading(splits, order, batches)))
    ensures AllRead(splits, order')
    ensures Leads(At(s, p, d, mode, CReading(splits, order, batches)), At(s, p, d, mode, CReading(splits, order', batches')))
    decreases |Unread(splits, order)|
  {
    var s1 := At(s, p, d, mode, CReading(splits, order, batches));
    Stay(s1);
    order', batches' := order, batches;
    if Unread(splits, order) != {} {
      var at :| at in Unread(splits, order);
      var more := ReadOne(s, p, d, mode, splits, order, batches, at);
      var s2 := At(s, p, d, mode, CReading(splits, order + [at], batches + [more]));
      LeadsInv(s1, s2);
      assert Unread(splits, order + [at]) == Unread(splits, order) - {at};
      order', batches' := ReadRest(s, p, d, mode, splits, order + [at], batches + [more]);
      Onward(s1, s2, At(s, p, d, mode, CReading(splits, order', batches')));
    } else {
      forall j: nat, i: nat | j < |splits| && i < splits[j].count ensures (j, i) in order { assert (j, i) !in Unread(splits, order); }
    }
  }

  lemma ReadOne(s: State, p: nat, d: Id, mode: Mode, splits: seq<SplitRec>, order: seq<(nat, nat)>, batches: seq<Batch>, at: (nat, nat))
    returns (more: Batch)
    requires Inv(At(s, p, d, mode, CReading(splits, order, batches))) && at in Unread(splits, order)
    ensures Leads(At(s, p, d, mode, CReading(splits, order, batches)), At(s, p, d, mode, CReading(splits, order + [at], batches + [more])))
  {
    var s1 := At(s, p, d, mode, CReading(splits, order, batches));
    ReadFindsList(s1, p, at.0, at.1);
    var k := SplitList(d, splits[at.0].split, splits[at.0].gen, at.1);
    more := Batch(splits[at.0].split, s.store[k].entries);
    AtTwice(s, p, d, mode, CReading(splits, order, batches), CReading(splits, order + [at], batches + [more]));
    Stay(s1);
    Take(s1, s1, ReadList(p, at.0, at.1), At(s, p, d, mode, CReading(splits, order + [at], batches + [more])));
  }

  /** Any index can be written out. */
  lemma {:induction false} DumpExists(m: Index) returns (out: seq<Entry>)
    requires forall k :: k in m ==> m[k].file.name == k
    ensures IsDump(m, out)
    decreases |m|
  {
    out := [];
    if m != map[] {
      var k :| k in m;
      var rest := DumpExists(m - {k});
      out := rest + [m[k].file];
      DumpMore(m, k, rest);
    }
  }

  lemma DumpMore(m: Index, k: Name, rest: seq<Entry>)
    requires k in m && m[k].file.name == k && IsDump(m - {k}, rest)
    ensures IsDump(m, rest + [m[k].file])
  {
    var out := rest + [m[k].file];
    forall i | 0 <= i < |out| ensures out[i].name in m && SameFile(out[i], m[out[i].name].file) {
      if i < |rest| { assert out[i] == rest[i] && rest[i].name in m - {k}; }
    }
    forall i, j | 0 <= i < j < |out| ensures out[i].name != out[j].name { assert rest[i].name in m - {k}; }
    forall x | x in m ensures exists i :: 0 <= i < |out| && out[i].name == x {
      if x == k {
        assert out[|rest|].name == x;
      } else {
        assert x in m - {k};
        var i :| 0 <= i < |rest| && rest[i].name == x;
        assert out[i].name == x;
      }
    }
  }

  /** A merged file is held under its own name. */
  lemma {:induction false} KeysAreNames(mode: Mode, slot: Deconflicter, arr: seq<Arrival>)
    requires MergeAll(mode, slot, arr).Merged?
    ensures forall k :: k in MergeAll(mode, slot, arr).index ==> MergeAll(mode, slot, arr).index[k].file.name == k
    decreases |arr|
  {
    if arr != [] { KeysAreNames(mode, slot, arr[..|arr| - 1]); }
  }

  /** The files of the splits that are done agree where they share a path. */
  ghost predicate DoneAgree(s: State, d: Id) {
    forall f, g :: FileOfDone(s, d, f) && FileOfDone(s, d, g) && f.name == g.name ==> f.hash == g.hash
  }

  ghost predicate FileOfDone(s: State, d: Id, f: Entry) { exists split :: FileOf(s, d, split, f) }

  ghost predicate FileOf(s: State, d: Id, split: Component, f: Entry) {
    && SplitDone(d, split) in s.store && s.store[SplitDone(d, split)].SplitFinal?
    && s.store[SplitDone(d, split)].gen in s.attempts && f in s.attempts[s.store[SplitDone(d, split)].gen].files
  }

  /** What was read merges, in every mode but the forbidding one, and in that one if the splits agree. */
  lemma ReadMerges(s: State, c: Commit)
    requires Inv(s) && HasRead(s, c) && (c.mode.ForbidConflicts? ==> DoneAgree(s, c.d))
    ensures MergeOf(c.mode, c.batches).Merged?
  {
    var slot, arr := DefaultDeconflicter(c.mode), Arrivals(c.batches);
    CommitReadsGoodInputs(s, c);
    match c.mode {
      case IgnoreConflicts => IgnoreHolds(slot, arr);
      case ForbidConflicts =>
        ForbidIffAgree(slot, arr);
        forall i, j | 0 <= i < j < |arr| && arr[i].file.name == arr[j].file.name ensures arr[i].file.hash == arr[j].file.hash {
          ArrivalIsDone(s, c, arr[i]);
          ArrivalIsDone(s, c, arr[j]);
        }
      case _ =>
        DefaultSeparates(c.mode);
        MergeLosesNothing(c.mode, slot, arr);
    }
  }

  lemma ArrivalIsDone(s: State, c: Commit, a: Arrival)
    requires Inv(s) && HasRead(s, c) && a in Arrivals(c.batches)
    ensures FileOfDone(s, c.d, a.file)
  {
    var j := CommitReadsNothingElse(s, c, a);
    assert SplitRecOk(s, c.d, c.splits[j]);
    assert FileOf(s, c.d, a.split, a.file);
  }

  /** The commit of what was read is ready to be written. */
  lemma MergeDone(s: State, p: nat, c: Commit, b: Id) returns (t: State, out: seq<Entry>)
    requires Inv(s) && p in s.procs && s.procs[p] == Committer(c.d, c.mode, CReading(c.splits, c.order, c.batches))
    requires AllRead(c.splits, c.order) && b !in s.commits && c.pid == p && (c.mode.ForbidConflicts? ==> DoneAgree(s, c.d))
    ensures Leads(s, t) && t.store == s.store && t.attempts == s.attempts && t.procs == s.procs[p := Committer(c.d, c.mode, CUploading(b, 0))]
    ensures t.commits == s.commits[b := c.(out := out)]
  {
    assert ProcOk(s, p, s.procs[p]);
    ReadMerges(s, c);
    KeysAreNames(c.mode, DefaultDeconflicter(c.mode), Arrivals(c.batches));
    out := DumpExists(MergeOf(c.mode, c.batches).index);
    t := Moved(s, p, Committer(c.d, c.mode, CUploading(b, 0))).(commits := s.commits[b := c.(out := out)]);
    Stay(s);
    Take(s, s, FinishMerge(p, b, out), t);
  }

  lemma BundleHasCommit(s: State, k: Key)
    requires Inv(s) && (k.BundleList? || k.BundleDescriptor?) && k in s.store
    ensures k.bundle in s.commits
  {
    assert RecordOk(s, k);
  }

  /** Nothing is stored of a bundle that nobody has begun to commit. */
  ghost predicate Unwritten(st: Store, b: Id, n: nat) {
    BundleDescriptor(b) !in st && forall i: nat :: BundleList(b, i) in st ==> i < n
  }

  lemma NoBundleYet(s: State, b: Id)
    requires Inv(s) && b !in s.commits
    ensures Unwritten(s.store, b, 0)
  {
    if BundleDescriptor(b) in s.store { BundleHasCommit(s, BundleDescriptor(b)); }
    forall i: nat ensures BundleList(b, i) !in s.store {
      if BundleList(b, i) in s.store { BundleHasCommit(s, BundleList(b, i)); }
    }
  }

  ghost predicate OnlyBundle(s: State, t: State, b: Id) {
    && t.attempts == s.attempts && t.commits == s.commits
    && (forall k :: k in s.store ==> k in t.store && t.store[k] == s.store[k])
    && (forall k :: k in t.store && k !in s.store ==> (k.BundleList? || k.BundleDescriptor?) && k.bundle == b)
  }

  lemma WriteBundleList(s: State, p: nat, d: Id, mode: Mode, b: Id, n: nat) returns (t: State)
    requires p in s.procs && s.procs[p] == Committer(d, mode, CUploading(b, n)) && b in s.commits
    requires n < |Lists(s.commits[b].out)| && BundleList(b, n) !in s.store
    ensures Leads(s, t) && t.attempts == s.attempts && t.commits == s.commits && t.procs == s.procs[p := Committer(d, mode, CUploading(b, n + 1))]
    ensures t.store == s.store[BundleList(b, n) := Files(Lists(s.commits[b].out)[n])]
  {
    t := Next(s, PutBundleList(p));
    Stay(s);
    Take(s, s, PutBundleList(p), t);
  }

  lemma {:induction false} WriteBundleLists(s: State, p: nat, d: Id, mode: Mode, b: Id, n: nat) returns (t: State)
    requires p in s.procs && s.procs[p] == Committer(d, mode, CUploading(b, 0)) && b in s.commits
    requires n <= |Lists(s.commits[b].out)| && Unwritten(s.store, b, 0)
    ensures Leads(s, t) && OnlyBundle(s, t, b) && t.procs == s.procs[p := Committer(d, mode, CUploading(b, n))]
    ensures Unwritten(t.store, b, n)
    decreases n
  {
    if n == 0 {
      Stay(s);
      t := s;
    } else {
      var s1 := WriteBundleLists(s, p, d, mode, b, n - 1);
      t := WriteBundleList(s1, p, d, mode, b, n - 1);
      Onward(s, s1, t);
    }
  }

  lemma WriteBundle(s: State, p: nat, d: Id, mode: Mode, b: Id) returns (t: State)
    requires p in s.procs && s.procs[p] == Committer(d, mode, CUploading(b, 0)) && b in s.commits && Unwritten(s.store, b, 0)
    ensures Leads(s, t) && OnlyBundle(s, t, b) && p in t.procs && t.procs[p] == Committer(d, mode, CDescribed(b))
  {
    var s1 := WriteBundleLists(s, p, d, mode, b, |Lists(s.commits[b].out)|);
    t := Next(s1, PutBundleDescriptor(p));
    Take(s, s1, PutBundleDescriptor(p), t);
  }

  /** A new committer collects every split that is done, and reads all their lists. */
  lemma CollectAndRead(s: State, p: nat, d: Id, mode: Mode) returns (t: State, c: Commit)
    requires Inv(s) && p !in s.procs && IsOpen(s, d) && DoneSplits(s.store, d) != {}
    ensures Leads(s, t) && Inv(t) && t.store == s.store && t.attempts == s.attempts && t.commits == s.commits
    ensures p in t.procs && t.procs[p] == Committer(d, mode, CReading(c.splits, c.order, c.batches))
    ensures c.pid == p && c.d == d && c.mode == mode && AllRead(c.splits, c.order) && Collected(s.store, d, DoneSplits(s.store, d), c.splits)
  {
    var due := DoneSplits(s.store, d);
    Admit(s, p, Committer(d, mode, CStart));
    var s1 := At(s, p, d, mode, CCollecting(due, []));
    var recs := CollectSome(s, p, d, mode, due, due);
    var s2 := At(s, p, d, mode, CCollecting(due, recs));
    Onward(s, s1, s2);
    assert recs != [] by { var x :| x in due; assert Has(recs, x); }
    var s3 := At(s, p, d, mode, CReading(recs, [], []));
    AtTwice(s, p, d, mode, CCollecting(due, recs), CReading(recs, [], []));
    Take(s, s2, BeginMerge(p), s3);
    LeadsInv(s, s3);
    var order, batches := ReadRest(s, p, d, mode, recs, [], []);
    t := At(s, p, d, mode, CReading(recs, order, batches));
    Onward(s, s3, t);
    LeadsInv(s, t);
    c := Commit(p, d, mode, recs, order, batches, []);
  }

  /** The diamond is committed: its record names a commit in this mode, of exactly these splits. */
  ghost predicate CommittedAs(t: State, d: Id, mode: Mode, st: Store, splits: set<Component>) {
    && DiamondDone(d) in t.store && t.store[DiamondDone(d)].Done?
    && t.store[DiamondDone(d)].bundle in t.commits
    && t.commits[t.store[DiamondDone(d)].bundle].d == d && t.commits[t.store[DiamondDone(d)].bundle].mode == mode
    && Collected(st, d, splits, t.store[DiamondDone(d)].splits)
  }

  lemma FinishCommit(s: State, p: nat, c: Commit) returns (t: State)
    requires Inv(s) && p in s.procs && s.procs[p] == Committer(c.d, c.mode, CReading(c.splits, c.order, c.batches))
    requires AllRead(c.splits, c.order) && c.pid == p && (c.mode.ForbidConflicts? ==> DoneAgree(s, c.d)) && IsOpen(s, c.d)
    ensures Leads(s, t) && DiamondDone(c.d) in t.store && t.store[DiamondDone(c.d)].Done? && t.store[DiamondDone(c.d)].splits == c.splits
    ensures var b := t.store[DiamondDone(c.d)].bundle; b in t.commits && t.commits[b].d == c.d && t.commits[b].mode == c.mode
  {
    var b := FreshId(s.commits.Keys);
    NoBundleYet(s, b);
    var s1, out := MergeDone(s, p, c, b);
    var s2 := WriteBundle(s1, p, c.d, c.mode, b);
    Onward(s, s1, s2);
    LeadsInv(s, s2);
    CommitIsRecorded(s2, p, b);
    t := Next(s2, PutDone(p));
    Take(s, s2, PutDone(p), t);
  }

  /** From every reachable state with an open diamond that has a split which is done, the diamond can be committed
      with all such splits: in every mode, but with conflicts forbidden only if they agree. */
  lemma CanCommit(s: State, d: Id, mode: Mode) returns (t: State)
    requires Inv(s) && IsOpen(s, d) && DoneSplits(s.store, d) != {} && (mode.ForbidConflicts? ==> DoneAgree(s, d))
    ensures Leads(s, t) && CommittedAs(t, d, mode, s.store, DoneSplits(s.store, d))
  {
    var p := FreshPid(s.procs.Keys);
    var s1, c := CollectAndRead(s, p, d, mode);
    SameAgree(s, s1, d);
    t := FinishCommit(s1, p, c);
    Onward(s, s1, t);
  }

  lemma SameAgree(s: State, t: State, d: Id)
    requires t.store == s.store && t.attempts == s.attempts
    ensures DoneAgree(s, d) ==> DoneAgree(t, d)
  {
    forall f | FileOfDone(t, d, f) ensures FileOfDone(s, d, f) {
      var split :| FileOf(t, d, split, f);
      assert FileOf(s, d, split, f);
    }
  }

  // ---------------------------------------------------------------- from the beginning

  datatype Upload = Upload(split: Component, files: seq<Entry>)

  /** Splits with names of their own, each with files that can be uploaded. */
  ghost predicate GoodUploads(us: seq<Upload>) {
    && (forall i :: 0 <= i < |us| ==> Proper(us[i].split) && UploadableFiles(us[i].files))
    && (forall i, j :: 0 <= i < j < |us| ==> us[i].split != us[j].split)
  }

  /** The first `n` uploads are done, and no other split is. */
  ghost predicate Uploaded(s: State, d: Id, us: seq<Upload>, n: nat)
    requires n <= |us|
  {
    && Inv(s) && IsOpen(s, d)
    && (forall i :: 0 <= i < n ==> SplitDoneWith(s, d, us[i].split, us[i].files))
    && (forall x :: SplitDone(d, x) in s.store ==> exists i :: 0 <= i < n && us[i].split == x)
  }

  lemma NoUploads(d: Id, us: seq<Upload>) returns (s: State)
    ensures Leads(Init(), s) && Uploaded(s, d, us, 0)
  {
    Stay(Init());
    s := Init().(store := map[DiamondRunning(d) := Initialized]);
    Take(Init(), Init(), CreateDiamond(d), s);
    LeadsInv(Init(), s);
  }

  lemma UploadNext(s: State, d: Id, us: seq<Upload>, n: nat) returns (t: State)
    requires GoodUploads(us) && n < |us| && Uploaded(s, d, us, n)
    ensures Leads(s, t) && Uploaded(t, d, us, n + 1)
  {
    t := CanFinishSplit(s, d, us[n].split, us[n].files);
    LeadsInv(s, t);
    forall i | 0 <= i < n ensures SplitDoneWith(t, d, us[i].split, us[i].files) { assert SplitDoneWith(s, d, us[i].split, us[i].files); }
    forall x | SplitDone(d, x) in t.store ensures exists i :: 0 <= i < n + 1 && us[i].split == x {
      if x != us[n].split {
        var i :| 0 <= i < n && us[i].split == x;
        assert i < n + 1;
      }
    }
  }

  lemma {:induction false} UploadSome(d: Id, us: seq<Upload>, n: nat) returns (s: State)
    requires GoodUploads(us) && n <= |us|
    ensures Leads(Init(), s) && Uploaded(s, d, us, n)
    decreases n
  {
    if n == 0 {
      s := NoUploads(d, us);
    } else {
      var s1 := UploadSome(d, us, n - 1);
      s := UploadNext(s1, d, us, n - 1);
      Onward(Init(), s1, s);
    }
  }

  /** The files of the uploads agree where they share a path. */
  ghost predicate UploadsAgree(us: seq<Upload>) {
    forall i, j, f, g :: 0 <= i < |us| && 0 <= j < |us| && f in us[i].files && g in us[j].files && f.name == g.name ==> f.hash == g.hash
  }

  lemma UploadedAgree(s: State, d: Id, us: seq<Upload>)
    requires Uploaded(s, d, us, |us|) && UploadsAgree(us)
    ensures DoneAgree(s, d)
  {
    forall f | FileOfDone(s, d, f) ensures exists i :: 0 <= i < |us| && f in us[i].files {
      var split :| FileOf(s, d, split, f);
      var i :| 0 <= i < |us| && us[i].split == split;
      assert SplitDoneWith(s, d, us[i].split, us[i].files);
    }
  }

  /** For any splits and files there is a run, of a diamond that is created, has just these splits, and is committed
      in any mode, but with conflicts forbidden only if the files agree; its record has exactly these splits. */
  lemma CommitRunExists(d: Id, us: seq<Upload>, mode: Mode) returns (steps: seq<Step>)
    requires GoodUploads(us) && us != [] && (mode.ForbidConflicts? ==> UploadsAgree(us))
    ensures Committed(steps, d) && CommitOf(steps, d).mode == mode
    ensures forall i :: 0 <= i < |us| ==> SplitDoneWith(After(Init(), steps), d, us[i].split, us[i].files)
    ensures forall x :: Has(CommitOf(steps, d).splits, x) <==> exists i :: 0 <= i < |us| && us[i].split == x
  {
    var s := UploadSome(d, us, |us|);
    assert SplitDoneWith(s, d, us[0].split, us[0].files);
    assert us[0].split in DoneSplits(s.store, d);
    if mode.ForbidConflicts? { UploadedAgree(s, d, us); }
    var t := CanCommit(s, d, mode);
    Onward(Init(), s, t);
    LeadsInv(s, t);
    steps :| IsRun(Init(), steps) && After(Init(), steps) == t;
    forall i | 0 <= i < |us| ensures SplitDoneWith(t, d, us[i].split, us[i].files) { assert SplitDoneWith(s, d, us[i].split, us[i].files); }
    CollectedExactly(s, d, us, t.store[DiamondDone(d)].splits);
  }

  lemma CollectedExactly(s: State, d: Id, us: seq<Upload>, recs: seq<SplitRec>)
    requires Uploaded(s, d, us, |us|) && Collected(s.store, d, DoneSplits(s.store, d), recs)
    ensures forall x :: Has(recs, x) <==> exists i :: 0 <= i < |us| && us[i].split == x
  {
    forall x ensures Has(recs, x) <==> exists i :: 0 <= i < |us| && us[i].split == x {
      if Has(recs, x) {
        var j :| 0 <= j < |recs| && recs[j].split == x;
        assert IsRec(s.store, d, DoneSplits(s.store, d), recs[j]);
      }
      if i :| 0 <= i < |us| && us[i].split == x {
        assert SplitDoneWith(s, d, us[i].split, us[i].files);
        assert x in DoneSplits(s.store, d);
      }
    }
  }
}
