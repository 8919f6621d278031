/** No reachable state is stuck, and without new arrivals every run drains. */
module MountProgress {
  import opened Prelude
  import opened SymbolicCrypto
  import opened FlatFile
  import opened BlockStore
  import opened BlockHistory
  import opened MountModel
  import opened MountSafety
  import opened MountRuns

  /** Some job can step even if both locks let waiting writers go first. */
  ghost predicate CanStep(s: State) {
    exists a: Action :: !a.Arrive? && Enabled(s, a, true)
  }

  predicate HoldsInner(j: Job) { HoldsInnerRead(j) || HoldsInnerWrite(j) }

  /** Whoever holds the metadata lock finishes with it, waiting for nobody. */
  lemma InnerHolderSteps(s: State, o: OpId)
    requires o in s.jobs && WellTyped(s.jobs[o]) && HoldsInner(s.jobs[o])
    ensures CanStep(s)
  {
    hide CanReadInner, CanWriteInner, CanReadInode, CanWriteInode, DataEffect, Running;
    match s.jobs[o].pc
    case Checking => assert Enabled(s, Check(o), true);
    case Snapping => assert Enabled(s, Snap(o), true);
    case Committing(_, _, _) => assert Enabled(s, Commit(o), true);
    case Syncing => assert Enabled(s, FinishSync(o), true);
    case Flushing => assert Enabled(s, FinishFlush(o), true);
    case MetaHolds => assert Enabled(s, FinishMeta(o), true);
  }

  ghost predicate InnerFree(s: State) {
    forall o | o in s.jobs :: !HoldsInner(s.jobs[o])
  }

  lemma InnerWaiterSteps(s: State, o: OpId)
    requires InnerFree(s) && o in s.jobs && WantsInnerWrite(s.jobs[o])
    ensures CanStep(s)
  {
    hide CanReadInner, CanReadInode, CanWriteInode, DataEffect, Running;
    assert CanWriteInner(s);
    if s.jobs[o].pc.Written? { assert Enabled(s, BeginCommit(o), true); }
    else if s.jobs[o].pc.SyncHoldsInode? { assert Enabled(s, SyncInner(o), true); }
    else if s.jobs[o].req.Meta? { assert Enabled(s, BeginMeta(o), true); }
    else { assert Enabled(s, BeginFlush(o), true); }
  }

  ghost predicate InnerIdle(s: State) {
    InnerFree(s) && forall o | o in s.jobs :: !WantsInnerWrite(s.jobs[o])
  }

  /** The data file after the step, as `write_range` or `truncate` would leave it. */
  lemma DataStepExists(before: Option<seq<Cell>>, key: Key, size: nat, op: FileOp) returns (after: Option<seq<Cell>>)
    ensures DataEffect(before, key, size, op, after)
  {
    if flat :| Represents(before, key, size, flat) {
      var out := Apply(flat, op);
      EncodeRepresents(key, out);
      after := Some(Encode(key, out, BlockCount(|out|)));
      forall other | Represents(before, key, size, other) ensures other == flat {
        RepresentsOnce(before, key, size, flat, other);
      }
    } else {
      after := None;
    }
  }

  /** With the metadata lock idle, whoever holds an inode lock can go on. */
  lemma InodeHolderSteps(s: State, o: OpId)
    requires InnerIdle(s) && o in s.jobs && WellTyped(s.jobs[o])
    requires HoldsInodeWrite(s.jobs[o]) || HoldsInodeRead(s.jobs[o])
    ensures CanStep(s)
  {
    hide CanWriteInner, CanReadInode, CanWriteInode, DataEffect, Running;
    var j := s.jobs[o];
    if j.pc.Locked? {
      if j.req.ReadData? { assert Enabled(s, FinishRead(o), true); }
      else { assert CanReadInner(s, true); assert Enabled(s, BeginSnap(o), true); }
    } else if j.pc.Ready? {
      assert Enabled(s, BeginData(o, Random(0), None, None), true);
    } else {
      var after := DataStepExists(j.pc.before, j.pc.key, j.pc.node.size, FileOpOf(j.req));
      assert Enabled(s, EndData(o, true, after, None), true);
    }
  }

  ghost predicate InodesFree(s: State) {
    forall o | o in s.jobs :: !HoldsInodeWrite(s.jobs[o]) && !HoldsInodeRead(s.jobs[o])
  }

  /** With every inode lock free, a waiting writer goes first, then anybody who waits. */
  lemma WriterSteps(s: State, o: OpId)
    requires InodesFree(s) && o in s.jobs && WantsInodeWrite(s.jobs[o])
    ensures CanStep(s)
  {
    hide CanReadInner, CanWriteInner, CanReadInode, DataEffect, Running;
    assert CanWriteInode(s, s.jobs[o].req.ino);
    assert Enabled(s, LockInode(o), true);
  }

  ghost predicate NoWriterWaits(s: State) {
    forall o | o in s.jobs :: !WantsInodeWrite(s.jobs[o])
  }

  lemma ReaderSteps(s: State, o: OpId)
    requires InnerIdle(s) && InodesFree(s) && NoWriterWaits(s) && o in s.jobs && WellTyped(s.jobs[o])
    requires s.jobs[o].pc.Waiting? || s.jobs[o].pc.Dispatched?
    ensures CanStep(s)
  {
    hide CanWriteInner, CanWriteInode, DataEffect, Running;
    var j := s.jobs[o];
    if j.pc.Waiting? {
      assert CanReadInode(s, j.req.ino, true);
      assert Enabled(s, LockInode(o), true);
    } else if j.req.Sync? {
      assert CanReadInode(s, j.req.ino, true);
      assert Enabled(s, SyncLock(o), true);
    } else {
      assert CanReadInner(s, true);
      assert Enabled(s, BeginCheck(o), true);
    }
  }

  /** When all jobs are queued, every worker is idle and picks one up. */
  lemma QueueSteps(s: State, o: OpId)
    requires s.workers >= 1 && o in s.jobs
    requires forall p | p in s.jobs :: s.jobs[p].pc.Queued?
    ensures CanStep(s)
  {
    hide CanReadInner, CanWriteInner, CanReadInode, CanWriteInode, DataEffect;
    assert Running(s) == {};
    assert Enabled(s, Pick(o), true);
  }

  /** Every job is at a lock, in the queue, or at one of the steps above. */
  lemma JobCases(j: Job)
    requires WellTyped(j) && !HoldsInner(j) && !HoldsInodeWrite(j) && !HoldsInodeRead(j)
    ensures j.pc.Waiting? || j.pc.Dispatched? || j.pc.Queued?
  {
  }

  /**
    No reachable state with an unfinished job is deadlocked, for any number of workers and
    even with locks under which a waiting writer keeps new readers out.
   */
  lemma NeverDeadlocked(s: State)
    requires Inv(s) && s.jobs != map[]
    ensures CanStep(s)
  {
    assert Typed(s);
    hide Inv, CanStep, HoldsInner, HoldsInodeRead, HoldsInodeWrite, WantsInnerWrite, WantsInodeWrite, WellTyped;
    if o :| o in s.jobs && HoldsInner(s.jobs[o]) { InnerHolderSteps(s, o); }
    else if o :| o in s.jobs && WantsInnerWrite(s.jobs[o]) { InnerWaiterSteps(s, o); }
    else if o :| o in s.jobs && (HoldsInodeWrite(s.jobs[o]) || HoldsInodeRead(s.jobs[o])) { InodeHolderSteps(s, o); }
    else if o :| o in s.jobs && WantsInodeWrite(s.jobs[o]) { WriterSteps(s, o); }
    else if o :| o in s.jobs && (s.jobs[o].pc.Waiting? || s.jobs[o].pc.Dispatched?) { ReaderSteps(s, o); }
    else {
      forall p | p in s.jobs ensures s.jobs[p].pc.Queued? { JobCases(s.jobs[p]); }
      var o :| o in s.jobs;
      QueueSteps(s, o);
    }
  }

  // ---- Runs without arrivals are finite ----

  /** How many steps a job has before it at most. */
  function StepsLeft(j: Job): nat
    ensures 1 <= StepsLeft(j) <= 10
  {
    match j.pc
    case Dispatched => 10
    case Checking => 9
    case Queued(_) => 8
    case Waiting(_) => 7
    case Locked(_) => 6
    case Snapping => 5
    case Ready(_) => 4
    case Writing(_, _, _) => 3
    case Written(_, _, _) => 2
    case Committing(_, _, _) => 1
    case SyncHoldsInode => 2
    case Syncing => 1
    case Flushing => 1
    case MetaHolds => 1
  }

  ghost function Total(jobs: map<OpId, Job>): nat
    decreases |jobs|
  {
    if jobs == map[] then 0
    else
      var o :| o in jobs;
      StepsLeft(jobs[o]) + Total(jobs - {o})
  }

  lemma {:induction false} TotalSplit(jobs: map<OpId, Job>, o: OpId)
    requires o in jobs
    ensures Total(jobs) == StepsLeft(jobs[o]) + Total(jobs - {o})
    decreases |jobs|
  {
    hide StepsLeft;
    var p :| p in jobs && Total(jobs) == StepsLeft(jobs[p]) + Total(jobs - {p});
    if p != o {
      TotalSplit(jobs - {p}, o);
      TotalSplit(jobs - {o}, p);
      assert jobs - {p} - {o} == jobs - {o} - {p};
    }
  }

  lemma {:induction false} TotalBound(jobs: map<OpId, Job>)
    ensures Total(jobs) <= 10 * |jobs|
    decreases |jobs|
  {
    if jobs != map[] {
      var o :| o in jobs;
      TotalSplit(jobs, o);
      TotalBound(jobs - {o});
    }
  }

  /** One job ended, or came closer to its end, and nothing happened to the others. */
  predicate Nearer(jobs: map<OpId, Job>, jobs': map<OpId, Job>, o: OpId) {
    && o in jobs && jobs' - {o} == jobs - {o}
    && (o in jobs' ==> jobs'[o].req == jobs[o].req && StepsLeft(jobs'[o]) < StepsLeft(jobs[o]))
  }

  lemma NearerIsLess(jobs: map<OpId, Job>, jobs': map<OpId, Job>, o: OpId)
    requires Nearer(jobs, jobs', o)
    ensures Total(jobs') < Total(jobs)
  {
    TotalSplit(jobs, o);
    if o in jobs' { TotalSplit(jobs', o); } else { assert jobs' - {o} == jobs'; }
  }

  lemma AtIsNearer(s: State, o: OpId, pc: Pc)
    requires o in s.jobs && StepsLeft(s.jobs[o].(pc := pc)) < StepsLeft(s.jobs[o])
    ensures Nearer(s.jobs, At(s, o, pc).jobs, o)
  {
    hide StepsLeft;
    assert At(s, o, pc).jobs - {o} == s.jobs - {o};
  }

  lemma GoneIsNearer(s: State, o: OpId)
    requires o in s.jobs
    ensures Nearer(s.jobs, Gone(s, o).jobs, o)
  {
    hide StepsLeft;
  }

  lemma DispatcherIsNearer(s: State, a: Action)
    requires Typed(s) && Enabled(s, a, false) && (a.BeginCheck? || a.Check? || a.SyncLock? || a.SyncInner? ||
      a.BeginFlush? || a.BeginMeta?)
    ensures Nearer(s.jobs, Do(s, a).jobs, a.o)
  {
    hide CanReadInner, CanWriteInner, CanReadInode, Nearer, Typed;
    match a
    case BeginCheck(o) => AtIsNearer(s, o, Checking);
    case Check(o) => if Do(s, a) == Gone(s, o) { GoneIsNearer(s, o); } else { AtIsNearer(s, o, Do(s, a).jobs[o].pc); }
    case SyncLock(o) => AtIsNearer(s, o, SyncHoldsInode);
    case SyncInner(o) => AtIsNearer(s, o, Syncing);
    case BeginFlush(o) => AtIsNearer(s, o, Flushing);
    case BeginMeta(o) => AtIsNearer(s, o, MetaHolds);
  }

  lemma WorkerIsNearer(s: State, a: Action)
    requires Typed(s) && Enabled(s, a, false)
    requires a.Pick? || a.LockInode? || a.BeginSnap? || a.Snap? || a.BeginCommit? || a.FinishRead?
    ensures Nearer(s.jobs, Do(s, a).jobs, a.o)
  {
    hide CanReadInner, CanWriteInner, CanReadInode, CanWriteInode, Running, Nearer, Typed;
    match a
    case Pick(o) => AtIsNearer(s, o, Waiting(s.jobs[o].pc.seen));
    case LockInode(o) => AtIsNearer(s, o, Locked(s.jobs[o].pc.seen));
    case BeginSnap(o) => AtIsNearer(s, o, Snapping);
    case Snap(o) => if Do(s, a) == Gone(s, o) { GoneIsNearer(s, o); } else { AtIsNearer(s, o, Do(s, a).jobs[o].pc); }
    case BeginCommit(o) => AtIsNearer(s, o, Committing(s.jobs[o].pc.node, s.jobs[o].pc.key, s.jobs[o].pc.size));
    case FinishRead(o) => GoneIsNearer(s, o);
  }

  lemma BeginDataIsNearer(s: State, o: OpId, fresh': Key, partial: Option<seq<Cell>>, flushed: Option<seq<Cell>>)
    requires o in s.jobs && s.jobs[o].pc.Ready? && IsWriter(s.jobs[o].req)
    ensures Nearer(s.jobs, DoBeginData(s, o, fresh', partial, flushed).jobs, o)
  {
    hide Put, Get, Nearer;
    AtIsNearer(s, o, DoBeginData(s, o, fresh', partial, flushed).jobs[o].pc);
  }

  lemma EndDataIsNearer(s: State, o: OpId, ok: bool, after: Option<seq<Cell>>, flushed: Option<seq<Cell>>)
    requires o in s.jobs && s.jobs[o].pc.Writing? && IsWriter(s.jobs[o].req)
    ensures Nearer(s.jobs, DoEndData(s, o, ok, after, flushed).jobs, o)
  {
    hide Put, NewSize, Nearer;
    if ok { AtIsNearer(s, o, DoEndData(s, o, ok, after, flushed).jobs[o].pc); } else { GoneIsNearer(s, o); }
  }

  lemma DataIsNearer(s: State, a: Action)
    requires Typed(s) && Enabled(s, a, false) && (a.BeginData? || a.EndData?)
    ensures Nearer(s.jobs, Do(s, a).jobs, a.o)
  {
    hide DataEffect, Nearer, DoBeginData, DoEndData;
    assert WellTyped(s.jobs[a.o]);
    match a
    case BeginData(o, fresh', partial, flushed) => BeginDataIsNearer(s, o, fresh', partial, flushed);
    case EndData(o, ok, after, flushed) => EndDataIsNearer(s, o, ok, after, flushed);
  }

  lemma EndIsNearer(s: State, a: Action)
    requires Typed(s) && Enabled(s, a, false) && (a.Commit? || a.FinishSync? || a.FinishFlush? || a.FinishMeta?)
    ensures Nearer(s.jobs, Do(s, a).jobs, a.o) && a.o !in Do(s, a).jobs
  {
    hide Nearer, Typed, Put, Get, Namespace.Step, FileOpOf;
    GoneIsNearer(s, a.o);
  }

  lemma StepIsNearer(s: State, a: Action)
    requires Typed(s) && Enabled(s, a, false) && !a.Arrive?
    ensures Nearer(s.jobs, Do(s, a).jobs, a.o)
  {
    hide Typed, Enabled, Do, Nearer;
    if a.BeginData? || a.EndData? { DataIsNearer(s, a); }
    else if a.Commit? || a.FinishSync? || a.FinishFlush? || a.FinishMeta? { EndIsNearer(s, a); }
    else if a.BeginCheck? || a.Check? || a.SyncLock? || a.SyncInner? || a.BeginFlush? ||
      a.BeginMeta? { DispatcherIsNearer(s, a); }
    else { WorkerIsNearer(s, a); }
  }

  ghost predicate NoArrivals(actions: seq<Action>) {
    forall k | 0 <= k < |actions| :: !actions[k].Arrive?
  }

  lemma {:induction false} RunIsShort(states: seq<State>, actions: seq<Action>, k: nat)
    requires IsRun(states, actions) && NoArrivals(actions) && k <= |actions|
    ensures k + Total(states[k].jobs) <= Total(states[0].jobs)
  {
    hide Typed, Enabled, Do, Total;
    if k > 0 {
      RunIsShort(states, actions, k - 1);
      assert IsStep(states[k - 1], actions[k - 1], states[k]);
      StepIsNearer(states[k - 1], actions[k - 1]);
      NearerIsLess(states[k - 1].jobs, states[k].jobs, actions[k - 1].o);
    }
  }

  /**
    However the steps are scheduled, without new arrivals a run has at most ten steps per
    unfinished job, and it can only stop when every job has finished.
   */
  lemma EveryRunDrains(states: seq<State>, actions: seq<Action>)
    requires IsRun(states, actions) && NoArrivals(actions) && Inv(states[0])
    ensures |actions| <= 10 * |states[0].jobs|
    ensures !CanStep(states[|actions|]) <==> states[|actions|].jobs == map[]
  {
    hide IsRun, Inv, Total, CanStep;
    RunShape(states, actions);
    RunIsShort(states, actions, |actions|);
    TotalBound(states[0].jobs);
    RunKeepsInv(states, actions, |actions|);
    var s := states[|actions|];
    if s.jobs != map[] { NeverDeadlocked(s); } else { EmptyIsDone(s); }
  }

  lemma EmptyIsDone(s: State)
    requires s.jobs == map[]
    ensures !CanStep(s)
  {
  }
}
