/**
  Nothing that was accepted is lost: every write and truncate commits, every other request
  is carried out, and the tree is what carrying them out one after the other makes of it.
 */
module MountCompletion {
  import opened Prelude
  import opened SymbolicCrypto
  import opened FlatFile
  import opened BlockStore
  import opened BlockHistory
  import opened Namespace
  import opened MountModel
  import opened MountSafety
  import opened MountRuns
  import opened MountProgress
  import opened MountOrder

  // ---- Writes and truncates in a set of jobs ----

  /** The operation this job wants done to inode `i`, if it wants one. */
  function Wanted(j: Job, i: Ino): multiset<FileOp> {
    if IsWriter(j.req) && j.req.ino == i then multiset{FileOpOf(j.req)} else multiset{}
  }

  ghost function PendingFor(jobs: map<OpId, Job>, i: Ino): multiset<FileOp>
    decreases |jobs|
  {
    if jobs == map[] then multiset{}
    else
      var o :| o in jobs;
      Wanted(jobs[o], i) + PendingFor(jobs - {o}, i)
  }

  lemma {:induction false} PendingSplit(jobs: map<OpId, Job>, o: OpId, i: Ino)
    requires o in jobs
    ensures PendingFor(jobs, i) == Wanted(jobs[o], i) + PendingFor(jobs - {o}, i)
    decreases |jobs|
  {
    hide Wanted;
    var p :| p in jobs && PendingFor(jobs, i) == Wanted(jobs[p], i) + PendingFor(jobs - {p}, i);
    if p != o {
      PendingSplit(jobs - {p}, o, i);
      PendingSplit(jobs - {o}, p, i);
      assert jobs - {p} - {o} == jobs - {o} - {p};
    }
  }

  lemma NothingPending(i: Ino)
    ensures PendingFor(map[], i) == multiset{}
  {
  }

  // ---- How jobs end ----

  /** The step that carries the request out. */
  predicate CarriesOut(a: Action, req: Request) {
    match req
    case WriteData(_, _, _) => a.Commit?
    case SetSize(_, _, _) => a.Commit?
    case ReadData(_, _, _) => a.FinishRead?
    case Sync(_) => a.FinishSync?
    case SyncDir => a.FinishFlush?
    case Meta(_) => a.FinishMeta?
  }

  lemma MoveEnds(s: State, a: Action)
    requires Typed(s) && Enabled(s, a, false) && MovesOnly(a) && a.o !in Do(s, a).jobs
    ensures CarriesOut(a, s.jobs[a.o].req) || (HasIno(s.jobs[a.o].req) && !IsFile(s.tree.fs, s.jobs[a.o].req.ino))
  {
    hide CanReadInner, CanWriteInner, CanReadInode, CanWriteInode, Running, KernelLimits,
      DoCommit, DoBeginData, DoEndData, DoSync, DoFlush, DoMeta, DataEffect;
    assert WellTyped(s.jobs[a.o]);
  }

  lemma BeginDataStays(s: State, o: OpId, fresh': Key, partial: Option<seq<Cell>>, flushed: Option<seq<Cell>>)
    requires o in s.jobs && s.jobs[o].pc.Ready? && HasIno(s.jobs[o].req)
    ensures o in DoBeginData(s, o, fresh', partial, flushed).jobs
  {
    hide Put, Get;
  }

  lemma EndDataEnds(s: State, o: OpId, ok: bool, after: Option<seq<Cell>>, flushed: Option<seq<Cell>>)
    requires o in s.jobs && s.jobs[o].pc.Writing? && IsWriter(s.jobs[o].req)
    ensures ok ==> o in DoEndData(s, o, ok, after, flushed).jobs
  {
    hide Put, NewSize;
  }

  lemma DataEnds(s: State, a: Action)
    requires Typed(s) && Enabled(s, a, false) && (a.BeginData? || a.EndData?) && a.o !in Do(s, a).jobs
    ensures HasIno(s.jobs[a.o].req) && s.jobs[a.o].req.ino !in s.tree.fs
  {
    hide DataEffect, DoBeginData, DoEndData;
    assert WellTyped(s.jobs[a.o]);
    match a
    case BeginData(o, fresh', partial, flushed) => BeginDataStays(s, o, fresh', partial, flushed);
    case EndData(o, ok, after, flushed) => EndDataEnds(s, o, ok, after, flushed);
  }

  lemma LastStepCarriesOut(s: State, a: Action)
    requires Typed(s) && Enabled(s, a, false) && (a.Commit? || a.FinishSync? || a.FinishFlush? || a.FinishMeta?)
    ensures CarriesOut(a, s.jobs[a.o].req)
  {
    assert WellTyped(s.jobs[a.o]);
  }

  /** A job ends by the step that carries it out, or because its inode is no file any more. */
  lemma EndsByCarryingOut(s: State, a: Action)
    requires Typed(s) && Enabled(s, a, false) && !a.Arrive? && a.o !in Do(s, a).jobs
    ensures CarriesOut(a, s.jobs[a.o].req) || (HasIno(s.jobs[a.o].req) && !IsFile(s.tree.fs, s.jobs[a.o].req.ino))
  {
    hide Typed, Do, CanReadInner, CanWriteInner, CanReadInode, CanWriteInode, Running, DataEffect, CarriesOut;
    if MovesOnly(a) { MoveEnds(s, a); }
    else if a.BeginData? || a.EndData? { DataEnds(s, a); }
    else { LastStepCarriesOut(s, a); }
  }

  /** An idle dispatcher takes any request the kernel may send. */
  lemma IdleDispatcherAccepts(s: State, o: OpId, req: Request)
    requires o !in s.jobs && forall p | p in s.jobs :: !OnDispatcher(s.jobs[p])
    requires KernelLimits(req) && (req.Meta? ==> Admissible(s.tree, req.op))
    ensures Enabled(s, Arrive(o, req), true)
  {
  }

  // ---- Accepted is committed or pending ----

  /** The operation on inode `i` that arrives with this step. */
  function Arriving(a: Action, i: Ino): multiset<FileOp> {
    if a.Arrive? then Wanted(Job(a.req, Dispatched), i) else multiset{}
  }

  ghost function Arrived(actions: seq<Action>, i: Ino, k: nat): multiset<FileOp>
    requires k <= |actions|
  {
    if k == 0 then multiset{} else Arrived(actions, i, k - 1) + Arriving(actions[k - 1], i)
  }

  lemma ArriveBalances(s: State, a: Action, i: Ino)
    requires Typed(s) && Enabled(s, a, false) && a.Arrive?
    ensures PendingFor(Do(s, a).jobs, i) == PendingFor(s.jobs, i) + Arriving(a, i) && CommitOf(s, a, i) == []
  {
    var jobs' := Do(s, a).jobs;
    assert jobs' - {a.o} == s.jobs;
    hide PendingFor, Enabled, Typed;
    PendingSplit(jobs', a.o, i);
  }

  /** What the moving job wanted is committed with its end, and stays wanted until then. */
  lemma EndBalances(s: State, a: Action, i: Ino)
    requires Typed(s) && Enabled(s, a, false) && !a.Arrive? && IsFile(s.tree.fs, i)
    ensures a.o in s.jobs
    ensures a.o in Do(s, a).jobs ==> CommitOf(s, a, i) == []
    ensures a.o !in Do(s, a).jobs ==> Wanted(s.jobs[a.o], i) == multiset(CommitOf(s, a, i))
  {
    hide Do, CanReadInner, CanWriteInner, CanReadInode, CanWriteInode, Running, DataEffect;
    assert WellTyped(s.jobs[a.o]);
    if a.Commit? { EndIsNearer(s, a); }
    if a.o !in Do(s, a).jobs { EndsByCarryingOut(s, a); }
  }

  lemma SameWanted(j: Job, j': Job, i: Ino)
    requires j.req == j'.req
    ensures Wanted(j, i) == Wanted(j', i)
  {
  }

  lemma StepBalances(s: State, a: Action, i: Ino)
    requires Typed(s) && Enabled(s, a, false) && IsFile(s.tree.fs, i)
    ensures PendingFor(Do(s, a).jobs, i) + multiset(CommitOf(s, a, i)) == PendingFor(s.jobs, i) + Arriving(a, i)
  {
    hide Enabled, Typed, Do, PendingFor, CommitOf, Wanted;
    if a.Arrive? {
      ArriveBalances(s, a, i);
    } else {
      EndBalances(s, a, i);
      StepIsNearer(s, a);
      var jobs' := Do(s, a).jobs;
      PendingSplit(s.jobs, a.o, i);
      if a.o in jobs' { PendingSplit(jobs', a.o, i); SameWanted(jobs'[a.o], s.jobs[a.o], i); }
        else { assert jobs' - {a.o} == jobs'; }
    }
  }

  /**
    In every run, for an inode that stays a file: the writes and truncates pending at the
    start and those that arrived are, counted with repetition, those committed and those
    still pending.
   */
  lemma {:induction false} AcceptedIsCommittedOrPending(states: seq<State>, actions: seq<Action>, i: Ino, k: nat)
    requires IsRun(states, actions) && k <= |actions| && forall m | 0 <= m < k :: IsFile(states[m].tree.fs, i)
    ensures PendingFor(states[0].jobs, i) + Arrived(actions, i, k) ==
      multiset(CommitsOf(states, actions, i, k)) + PendingFor(states[k].jobs, i)
  {
    hide Enabled, Typed, Do, PendingFor, CommitOf, Arriving;
    if k > 0 {
      AcceptedIsCommittedOrPending(states, actions, i, k - 1);
      assert IsStep(states[k - 1], actions[k - 1], states[k]);
      StepBalances(states[k - 1], actions[k - 1], i);
      var done, last := CommitsOf(states, actions, i, k - 1), CommitOf(states[k - 1], actions[k - 1], i);
      assert multiset(done + last) == multiset(done) + multiset(last);
      Balance(PendingFor(states[0].jobs, i), Arrived(actions, i, k - 1), multiset(done),
        PendingFor(states[k - 1].jobs, i),
        Arriving(actions[k - 1], i), multiset(last), PendingFor(states[k].jobs, i));
    }
  }

  lemma Balance(start: multiset<FileOp>, arrived: multiset<FileOp>, done: multiset<FileOp>, pending: multiset<FileOp>,
    arriving: multiset<FileOp>, last: multiset<FileOp>, pending': multiset<FileOp>)
    requires start + arrived == done + pending && pending' + last == pending + arriving
    ensures start + (arrived + arriving) == done + last + pending'
  {
    assert start + (arrived + arriving) == start + arrived + arriving;
    assert done + pending + arriving == done + (pending + arriving);
    assert done + (pending' + last) == done + last + pending';
  }

  /** So once the jobs have drained, exactly what was accepted has been committed. */
  lemma EveryAcceptedWriteCommits(states: seq<State>, actions: seq<Action>, i: Ino)
    requires IsRun(states, actions) && states[|actions|].jobs == map[]
    requires forall m | 0 <= m <= |actions| :: IsFile(states[m].tree.fs, i)
    ensures multiset(CommitsOf(states, actions, i, |actions|)) ==
      PendingFor(states[0].jobs, i) + Arrived(actions, i, |actions|)
  {
    AcceptedIsCommittedOrPending(states, actions, i, |actions|);
    NothingPending(i);
  }

  // ---- The tree ----

  /** A committed write records the new size; a setattr may also carry permission bits. */
  function Recorded(t: Tree, req: Request, size: nat): Tree
    requires IsWriter(req) && req.ino in t.fs
  {
    var node := t.fs[req.ino].(size := size);
    var changed := if req.SetSize? && req.mode.Some? then node.(perm := req.mode.value % 0x200) else node;
    t.(fs := t.fs[req.ino := changed])
  }

  /** The requests carried out in the first `k` steps, one after the other, from the mounted tree. */
  ghost function SerialTree(states: seq<State>, actions: seq<Action>, k: nat): Tree
    requires k <= |actions| && |states| == |actions| + 1
  {
    if k == 0 then states[0].tree
    else
      var t, s, a := SerialTree(states, actions, k - 1), states[k - 1], actions[k - 1];
      if a.FinishMeta? && a.o in s.jobs && s.jobs[a.o].req.Meta? then Namespace.Step(t, s.jobs[a.o].req.op).0
      else if a.Commit? && a.o in s.jobs && IsWriter(s.jobs[a.o].req) && s.jobs[a.o].req.ino in t.fs then
        var i := s.jobs[a.o].req.ino;
        Recorded(t, s.jobs[a.o].req, |Replay(Base(states[0], i), CommitsOf(states, actions, i, k))|)
      else t
  }

  lemma MetaTree(s: State, a: Action)
    requires Inv(s) && Enabled(s, a, false) && a.FinishMeta?
    ensures a.o in s.jobs && s.jobs[a.o].req.Meta? && Do(s, a).tree == Namespace.Step(s.tree, s.jobs[a.o].req.op).0
  {
    hide Namespace.Step, Namespace.IsTree, LockInv, JobData, FileData;
    InvFacts(s, a.o);
    StepKeepsData(s.tree, s.jobs[a.o].req.op);
  }

  lemma CommitTreeIs(s: State, a: Action)
    requires Inv(s) && Enabled(s, a, false) && a.Commit?
    ensures a.o in s.jobs && IsWriter(s.jobs[a.o].req)
    ensures var req := s.jobs[a.o].req;
            Do(s, a).tree == if req.ino in s.tree.fs then Recorded(s.tree, req, |Content(Do(s, a), req.ino)|)
              else s.tree
  {
    hide Enabled, Do, Typed, LockInv, FileData, Namespace.Valid, Replay, Apply, Admissible;
    assert Typed(s);
    CommitEnabled(s, a);
    InvFacts(s, a.o);
    var req := s.jobs[a.o].req;
    if req.ino in s.tree.fs { CommitContent(s, a.o, req.ino); }
  }

  lemma OtherTree(s: State, a: Action)
    requires Typed(s) && Enabled(s, a, false) && !a.FinishMeta? && !a.Commit?
    ensures Do(s, a).tree == s.tree
  {
    hide Enabled, Typed, DoCommit, DoMeta, Move, Put, Get, NewSize, FileOpOf;
    if MovesOnly(a) { MoveOnlyMoves(s, a); }
  }

  /** The tree in memory is, at every point of every run, the serial outcome of what was carried out. */
  lemma {:induction false} TreeIsSerial(states: seq<State>, actions: seq<Action>, k: nat)
    requires IsRun(states, actions) && Mounted(states[0]) && k <= |actions|
    ensures states[k].tree == SerialTree(states, actions, k)
  {
    hide Inv, Mounted, Enabled, Do, Replay, CommitsOf, Namespace.Step, Recorded;
    if k > 0 {
      TreeIsSerial(states, actions, k - 1);
      var s, a := states[k - 1], actions[k - 1];
      assert IsStep(s, a, states[k]);
      MountedInv(states[0]);
      RunKeepsInv(states, actions, k - 1);
      TreeStep(states, actions, k);
    }
  }

  lemma TreeStep(states: seq<State>, actions: seq<Action>, k: nat)
    requires IsRun(states, actions) && Mounted(states[0]) && 0 < k <= |actions| && Inv(states[k - 1])
    requires states[k - 1].tree == SerialTree(states, actions, k - 1)
    ensures states[k].tree == SerialTree(states, actions, k)
  {
    hide Inv, Enabled, Do, Replay, CommitsOf, Namespace.Step, Recorded, Mounted, IsRun;
    RunStep(states, actions, k - 1);
    var s, a := states[k - 1], actions[k - 1];
    if a.FinishMeta? {
      MetaTree(s, a);
    } else if a.Commit? {
      CommitTreeIs(s, a);
      MountedLog(states[0]);
      RunLogs(states, actions, s.jobs[a.o].req.ino, k);
    } else {
      OtherTree(s, a);
    }
  }

  lemma RunStep(states: seq<State>, actions: seq<Action>, k: nat)
    requires IsRun(states, actions) && k < |actions|
    ensures |states| == |actions| + 1 && IsStep(states[k], actions[k], states[k + 1])
  {
  }

  // ---- What saves and removes ----

  /** A sync, a successful namespace change and a committed truncate leave the index saved. */
  lemma SavedAfter(s: State, a: Action)
    requires Inv(s) && Enabled(s, a, false)
    requires a.FinishSync? || a.FinishFlush? || (a.FinishMeta? && Do(s, a).tree != s.tree)
             || (a.Commit? && s.jobs[a.o].req.SetSize? && s.jobs[a.o].req.ino in s.tree.fs)
    ensures !Do(s, a).dirty && Do(s, a).disk == Do(s, a).tree.fs
  {
    hide Inv, Enabled, JobData, Namespace.Step, FileOpOf, Put, Get, Move, CommitNode;
    CleanIsSaved(s);
    if a.FinishMeta? { MetaSaves(s, a); }
    else { hide DoMeta; }
  }

  lemma CleanIsSaved(s: State)
    requires Inv(s)
    ensures Typed(s) && (!s.dirty ==> s.disk == s.tree.fs)
  {
  }

  lemma MetaSaves(s: State, a: Action)
    requires Inv(s) && Enabled(s, a, false) && a.FinishMeta? && Do(s, a).tree != s.tree
    ensures !Do(s, a).dirty && Do(s, a).disk == Do(s, a).tree.fs
  {
    hide Namespace.Step, Namespace.Valid, LockInv, JobData, FileData;
    InvFacts(s, a.o);
  }

  /** What leaves the tree leaves no data file behind; the data files of the others stay. */
  lemma RemovedHasNoFile(s: State, a: Action, i: Ino)
    requires Inv(s) && Enabled(s, a, false) && a.FinishMeta? && i in s.tree.fs
    ensures Get(Do(s, a).files, i) == if i in Do(s, a).tree.fs then Get(s.files, i) else None
  {
    hide Namespace.Step, Namespace.Valid, LockInv, JobData, FileData;
    InvFacts(s, a.o);
    MetaTree(s, a);
  }

  // ---- Reads that nothing overtakes ----

  /** Job `o` is there from step `m` to step `n`. */
  predicate Lives(states: seq<State>, o: OpId, m: nat, n: nat)
    requires n < |states|
  {
    forall x | m <= x <= n :: o in states[x].jobs
  }

  /** The size this reader carries, once it has been dispatched. */
  predicate Carries(s: State, o: OpId, size: nat) {
    && o in s.jobs && s.jobs[o].req.ReadData?
    && (s.jobs[o].pc.Queued? || s.jobs[o].pc.Waiting? || s.jobs[o].pc.Locked?)
    && s.jobs[o].pc.seen.Some? && s.jobs[o].pc.seen.value.size == size
  }

  lemma CheckSees(s: State, a: Action)
    requires Typed(s) && Enabled(s, a, false) && a.Check? && s.jobs[a.o].req.ReadData? && a.o in Do(s, a).jobs
    ensures s.jobs[a.o].req.ino in s.tree.fs && Carries(Do(s, a), a.o, s.tree.fs[s.jobs[a.o].req.ino].size)
  {
    assert WellTyped(s.jobs[a.o]);
  }

  /** Another step leaves the reader with the size it has. */
  lemma StillCarries(s: State, a: Action, o: OpId, size: nat)
    requires Typed(s) && Enabled(s, a, false) && Carries(s, o, size) && o in Do(s, a).jobs
    ensures Carries(Do(s, a), o, size) && Do(s, a).jobs[o].req == s.jobs[o].req
  {
    if a.o != o {
      hide Enabled, Do, Typed;
      OthersStay(s, a, o);
    } else {
      OwnStepCarries(s, a, size);
    }
  }

  lemma OwnStepCarries(s: State, a: Action, size: nat)
    requires Typed(s) && Enabled(s, a, false) && Carries(s, a.o, size) && a.o in Do(s, a).jobs
    ensures Carries(Do(s, a), a.o, size) && Do(s, a).jobs[a.o].req == s.jobs[a.o].req
  {
    hide CanReadInner, CanWriteInner, CanReadInode, CanWriteInode, Running, KernelLimits,
      DoCommit, DoBeginData, DoEndData, DoSync, DoFlush, DoMeta, DataEffect;
    assert WellTyped(s.jobs[a.o]);
  }

  /** A live file's size changes only with a commit to it. */
  lemma SizeStays(s: State, a: Action, i: Ino)
    requires Inv(s) && Enabled(s, a, false) && CommitOf(s, a, i) == []
    requires i in s.tree.fs && i in Do(s, a).tree.fs
    ensures Do(s, a).tree.fs[i].size == s.tree.fs[i].size
  {
    hide Inv, Enabled, Do, Namespace.Step, Replay, Typed;
    InvTyped(s);
    if a.FinishMeta? {
      MetaTree(s, a);
      MetaNodes(s, s.jobs[a.o].req.op, i);
    } else if a.Commit? {
      CommitTreeIs(s, a);
      CommitEnabled(s, a);
    } else {
      OtherTree(s, a);
    }
  }

  lemma InvTyped(s: State)
    requires Inv(s)
    ensures Typed(s) && Namespace.Valid(s.tree)
  {
  }

  /** From its dispatch on the reader carries the size the file had then, and has while nothing commits. */
  lemma {:induction false} CarriesOn(states: seq<State>, actions: seq<Action>, o: OpId, i: Ino, m: nat, n: nat)
    requires IsRun(states, actions) && Inv(states[0]) && m < n <= |actions| && Lives(states, o, m, n)
    requires actions[m] == Check(o) && states[m].jobs[o].req.ReadData? && states[m].jobs[o].req.ino == i
    requires forall x | m <= x <= n :: i in states[x].tree.fs
    requires forall x | m <= x < n :: CommitOf(states[x], actions[x], i) == []
    ensures Carries(states[n], o, states[n].tree.fs[i].size) && states[n].jobs[o].req == states[m].jobs[o].req
    decreases n
  {
    hide Inv, Enabled, Do, Typed, CommitOf, Carries;
    assert IsStep(states[n - 1], actions[n - 1], states[n]);
    RunKeepsInv(states, actions, n - 1);
    assert o in states[n].jobs && o in states[n - 1].jobs;
    SizeStays(states[n - 1], actions[n - 1], i);
    if n == m + 1 {
      CheckSees(states[m], actions[m]);
      CheckKeepsRequest(states[m], actions[m]);
    } else {
      CarriesOn(states, actions, o, i, m, n - 1);
      CarriesMeans(states[n - 1], o, states[n - 1].tree.fs[i].size);
      StillCarries(states[n - 1], actions[n - 1], o, states[n - 1].tree.fs[i].size);
    }
  }

  lemma CarriesMeans(s: State, o: OpId, size: nat)
    requires Carries(s, o, size)
    ensures o in s.jobs && s.jobs[o].req.ReadData?
  {
  }

  lemma CheckKeepsRequest(s: State, a: Action)
    requires Typed(s) && Enabled(s, a, false) && a.Check? && a.o in Do(s, a).jobs
    ensures a.o in s.jobs && Do(s, a).jobs[a.o].req == s.jobs[a.o].req
  {
    hide Enabled, Do, Typed;
    StepIsNearer(s, a);
  }

  /**
    A read that no commit overtakes between its dispatch and its turn returns exactly the
    requested slice of the committed contents.
   */
  lemma ReadNotOvertaken(states: seq<State>, actions: seq<Action>, o: OpId, m: nat, n: nat, r: Result<seq<Byte>,
    IoError>)
    requires IsRun(states, actions) && Mounted(states[0]) && m < n <= |actions| && Lives(states, o, m, n)
    requires actions[m] == Check(o) && states[m].jobs[o].req.ReadData? && states[n].jobs[o].pc.Locked?
    requires var i := states[m].jobs[o].req.ino;
             && (forall x | m <= x <= n :: i in states[x].tree.fs)
             && (forall x | m <= x < n :: CommitOf(states[x], actions[x], i) == [])
    requires var s, i, seen := states[n], states[m].jobs[o].req.ino, states[n].jobs[o].pc.seen;
             && seen.Some? && seen.value.key.Some?
             && ReadReply(Get(s.files, i), seen.value.key.value, seen.value.size,
                          states[m].jobs[o].req.offset, states[m].jobs[o].req.len, r)
    ensures var req := states[m].jobs[o].req;
            r == Ok(Slice(Replay(Base(states[0], req.ino), CommitsOf(states, actions, req.ino, n)), req.offset,
              req.len))
  {
    hide Inv, Mounted, IsRun, CommitsOf, Replay, ReadReply, Slice, CommitOf;
    RunShape(states, actions);
    MountedInv(states[0]);
    MountedLog(states[0]);
    RunKeepsInv(states, actions, n);
    var i := states[m].jobs[o].req.ino;
    CarriesOn(states, actions, o, i, m, n);
    RunLogs(states, actions, i, n);
    ReadIsSerialIffCurrent(states[n], o, r);
  }

  // ---- The worker pool ----

  lemma MoveKeepsPool(s: State, a: Action)
    requires Typed(s) && Enabled(s, a, false) && MovesOnly(a) && !a.Pick? && a.o in Do(s, a).jobs
    ensures OnWorker(Do(s, a).jobs[a.o]) ==> OnWorker(s.jobs[a.o])
  {
    hide CanReadInner, CanWriteInner, CanReadInode, CanWriteInode, Running, KernelLimits, IsFile,
      DoCommit, DoBeginData, DoEndData, DoSync, DoFlush, DoMeta, DataEffect;
    assert WellTyped(s.jobs[a.o]);
  }

  /** Only picking a job up occupies a worker. */
  lemma PoolStep(s: State, a: Action, o: OpId)
    requires Typed(s) && Enabled(s, a, false) && o in Running(Do(s, a))
    ensures o in Running(s) || (a.Pick? && o == a.o)
  {
    hide Enabled, Do, Typed, OnWorker;
    if o != a.o {
      OthersStay(s, a, o);
    } else if a.Arrive? {
      ArrivesOnDispatcher(s, a);
    } else if MovesOnly(a) {
      PresentBefore(s, a);
      if !a.Pick? { MoveKeepsPool(s, a); }
    } else {
      EffectIsOnWorker(s, a);
    }
  }

  lemma PresentBefore(s: State, a: Action)
    requires Enabled(s, a, false) && !a.Arrive?
    ensures a.o in s.jobs
  {
  }

  lemma ArrivesOnDispatcher(s: State, a: Action)
    requires Typed(s) && Enabled(s, a, false) && a.Arrive?
    ensures a.o in Do(s, a).jobs && !OnWorker(Do(s, a).jobs[a.o])
  {
  }

  lemma EffectIsOnWorker(s: State, a: Action)
    requires Typed(s) && Enabled(s, a, false) && !MovesOnly(a) && !a.Arrive? && a.o in Do(s, a).jobs
    ensures a.o in s.jobs && OnWorker(s.jobs[a.o])
  {
    hide Do, CanReadInner, CanWriteInner, CanReadInode, CanWriteInode, Running, DataEffect;
    if !(a.BeginData? || a.EndData?) { EndIsNearer(s, a); }
  }

  lemma PoolStepBound(s: State, a: Action)
    requires Typed(s) && Enabled(s, a, false) && |Running(s)| <= s.workers
    ensures |Running(Do(s, a))| <= s.workers
  {
    hide Enabled, Do, Typed, OnWorker, Running;
    var allowed := if a.Pick? then Running(s) + {a.o} else Running(s);
    forall o | o in Running(Do(s, a)) ensures o in allowed { PoolStep(s, a, o); }
    SubsetSize(Running(Do(s, a)), allowed);
    if a.Pick? { PickHasWorker(s, a); }
  }

  lemma PickHasWorker(s: State, a: Action)
    requires Enabled(s, a, false) && a.Pick?
    ensures |Running(s)| < s.workers
  {
  }

  lemma WorkersStay(s: State, a: Action)
    requires Typed(s) && Enabled(s, a, false)
    ensures Do(s, a).workers == s.workers
  {
    hide Enabled, Typed, Namespace.Step, Move, Put, Get, NewSize, FileOpOf, CommitNode;
    if MovesOnly(a) { MoveOnlyMoves(s, a); }
  }

  /** Never more jobs run than there are workers. */
  lemma {:induction false} PoolIsBounded(states: seq<State>, actions: seq<Action>, k: nat)
    requires IsRun(states, actions) && Mounted(states[0]) && k <= |actions|
    ensures states[k].workers == states[0].workers && |Running(states[k])| <= states[0].workers
  {
    hide Enabled, Do, Typed, OnWorker, Running;
    if k == 0 {
      NobodyRuns(states[0]);
    } else {
      PoolIsBounded(states, actions, k - 1);
      assert IsStep(states[k - 1], actions[k - 1], states[k]);
      PoolStepBound(states[k - 1], actions[k - 1]);
      WorkersStay(states[k - 1], actions[k - 1]);
    }
  }

  lemma NobodyRuns(s: State)
    requires s.jobs == map[]
    ensures |Running(s)| == 0
  {
    assert Running(s) == {};
  }
}
