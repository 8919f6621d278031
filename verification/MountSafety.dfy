/** What every interleaving of the mounted volume's steps keeps. */
module MountSafety {
  import opened Prelude
  import opened SymbolicCrypto
  import opened FlatFile
  import opened BlockStore
  import opened BlockHistory
  import opened Namespace
  import opened MountModel

  // ---- The invariant ----

  /** Two jobs never hold conflicting locks, and the dispatcher runs one of them at most. */
  predicate Compatible(a: Job, b: Job) {
    && !(OnDispatcher(a) && OnDispatcher(b))
    && !(HoldsInnerWrite(a) && (HoldsInnerWrite(b) || HoldsInnerRead(b)))
    && (HasIno(a.req) && SameIno(b, a.req.ino) ==> !(HoldsInodeWrite(a) && (HoldsInodeWrite(b) || HoldsInodeRead(b))))
  }

  predicate LockInv(jobs: map<OpId, Job>) {
    forall p, q | p in jobs && q in jobs && p != q :: Compatible(jobs[p], jobs[q])
  }

  /** Between the start of its data step and its commit. */
  predicate InFlight(j: Job) { j.pc.Writing? || j.pc.Written? || j.pc.Committing? }

  ghost predicate Busy(s: State, i: Ino) {
    exists o :: o in s.jobs && SameIno(s.jobs[o], i) && InFlight(s.jobs[o])
  }

  /** The inode was a file when it was looked at, and its number is not used again. */
  predicate WasFile(s: State, i: Ino) {
    i < s.tree.next && (i in s.tree.fs ==> IsFile(s.tree.fs, i))
  }

  /** The writer's snapshot is still what the entry says, if the entry is still there. */
  predicate Current(s: State, i: Ino, node: Node) {
    WasFile(s, i) && (i in s.tree.fs ==> s.tree.fs[i].size == node.size && s.tree.fs[i].key == node.key)
  }

  /** A reader's snapshot may have an old size, but never another key. */
  predicate SameKey(s: State, i: Ino, node: Node) {
    WasFile(s, i) && (i in s.tree.fs ==> s.tree.fs[i].key == node.key)
  }

  ghost predicate JobData(s: State, j: Job)
    requires WellTyped(j)
  {
    match j.pc
    case Queued(seen) => WasFile(s, j.req.ino) && (seen.Some? ==> SameKey(s, j.req.ino, seen.value))
    case Waiting(seen) => WasFile(s, j.req.ino) && (seen.Some? ==> SameKey(s, j.req.ino, seen.value))
    case Locked(seen) => WasFile(s, j.req.ino) && (seen.Some? ==> SameKey(s, j.req.ino, seen.value))
    case Snapping => WasFile(s, j.req.ino)
    case Ready(node) => Current(s, j.req.ino, node)
    case Writing(node, key, before) =>
      && Current(s, j.req.ino, node) && j.req.ino !in s.synced
      && (j.req.ino in s.tree.fs ==> node.key == Some(key) && Represents(before, key, node.size, Content(s, j.req.ino)))
    case Written(node, key, size) => InFlightData(s, j.req, node, key, size)
    case Committing(node, key, size) => InFlightData(s, j.req, node, key, size)
    case _ => true
  }

  /** The data file already holds the contents this commit will record. */
  ghost predicate InFlightData(s: State, req: Request, node: Node, key: Key, size: nat)
    requires IsWriter(req)
  {
    && Current(s, req.ino, node) && req.ino !in s.synced
    && (req.ino in s.tree.fs ==>
          && node.key == Some(key) && size < LIMIT
          && Represents(Get(s.files, req.ino), key, size, Apply(Content(s, req.ino), FileOpOf(req))))
  }

  ghost predicate FileData(s: State, i: Ino)
    requires i in s.tree.fs
  {
    var node := s.tree.fs[i];
    node.kind == File ==>
      && node.key.Some? && node.size < LIMIT && |Content(s, i)| == node.size
      && (!Busy(s, i) ==> Represents(Get(s.files, i), node.key.value, node.size, Content(s, i)))
      && (i in s.synced ==>
            && i in s.disk && s.disk[i].size == node.size && s.disk[i].key == node.key
            && Represents(Get(s.durable, i), node.key.value, node.size, Content(s, i)))
  }

  predicate Bounds(s: State) {
    && (forall i | i in s.log :: i < s.tree.next)
    && (forall i | i in s.base :: i < s.tree.next)
  }

  ghost predicate MetaOk(s: State) {
    forall o | o in s.jobs && s.jobs[o].req.Meta? :: OnDispatcher(s.jobs[o]) && Admissible(s.tree, s.jobs[o].req.op)
  }

  ghost predicate AllJobs(s: State)
    requires Typed(s)
  {
    forall o | o in s.jobs :: JobData(s, s.jobs[o])
  }

  ghost predicate AllFiles(s: State) {
    forall i | i in s.tree.fs :: FileData(s, i)
  }

  ghost predicate Inv(s: State) {
    && s.workers >= 1 && Typed(s) && LockInv(s.jobs) && MetaOk(s)
    && Namespace.Valid(s.tree) && Bounds(s)
    && AllJobs(s) && AllFiles(s)
    && (!s.dirty ==> s.disk == s.tree.fs)
  }

  // ---- Frames ----

  lemma LockUpdate(jobs: map<OpId, Job>, o: OpId, j: Job)
    requires LockInv(jobs)
    requires forall q | q in jobs && q != o :: Compatible(j, jobs[q]) && Compatible(jobs[q], j)
    ensures LockInv(jobs[o := j])
  {
    hide Compatible;
  }

  lemma LockRemove(jobs: map<OpId, Job>, o: OpId)
    requires LockInv(jobs)
    ensures LockInv(jobs - {o})
  {
    hide Compatible;
  }

  /** A job that moves on without taking a lock stays compatible. */
  predicate HoldsNoMore(j': Job, j: Job) {
    && j'.req == j.req
    && (OnDispatcher(j') ==> OnDispatcher(j))
    && (HoldsInnerWrite(j') ==> HoldsInnerWrite(j)) && (HoldsInnerRead(j') ==> HoldsInnerRead(j))
    && (HoldsInodeWrite(j') ==> HoldsInodeWrite(j)) && (HoldsInodeRead(j') ==> HoldsInodeRead(j))
  }

  lemma LockWeaken(jobs: map<OpId, Job>, o: OpId, j: Job)
    requires LockInv(jobs) && o in jobs && HoldsNoMore(j, jobs[o])
    ensures LockInv(jobs[o := j])
  {
    forall q | q in jobs && q != o ensures Compatible(j, jobs[q]) && Compatible(jobs[q], j) {
      assert Compatible(jobs[o], jobs[q]) && Compatible(jobs[q], jobs[o]);
    }
    LockUpdate(jobs, o, j);
  }

  /** Everything but the jobs is the same. */
  predicate SameStore(s: State, s': State) {
    s' == s.(jobs := s'.jobs)
  }

  lemma JobDataFrame(s: State, s': State, j: Job)
    requires SameStore(s, s') && WellTyped(j) && JobData(s, j)
    ensures JobData(s', j)
  {
    hide Represents, Replay, Apply;
  }

  lemma FileDataFrame(s: State, s': State, i: Ino)
    requires SameStore(s, s') && i in s.tree.fs && FileData(s, i) && (Busy(s, i) ==> Busy(s', i))
    ensures FileData(s', i)
  {
    hide Represents, Replay, Busy;
  }

  /** A step that only moves one job's program counter. */
  lemma MoveKeepsInv(s: State, o: OpId, pc: Pc)
    requires Inv(s) && o in s.jobs && WellTyped(s.jobs[o].(pc := pc)) && LockInv(At(s, o, pc).jobs)
    requires InFlight(s.jobs[o].(pc := pc)) <==> InFlight(s.jobs[o])
    requires s.jobs[o].req.Meta? ==> OnDispatcher(s.jobs[o].(pc := pc))
    requires JobData(s, s.jobs[o].(pc := pc))
    ensures Inv(At(s, o, pc))
  {
    hide JobData, FileData, LockInv, Namespace.Valid, WellTyped, Admissible;
    var s' := At(s, o, pc);
    forall p | p in s'.jobs ensures JobData(s', s'.jobs[p]) {
      JobDataFrame(s, s', s'.jobs[p]);
    }
    forall i | i in s'.tree.fs ensures FileData(s', i) {
      BusyMove(s, o, pc, i);
      FileDataFrame(s, s', i);
    }
  }

  lemma BusyMove(s: State, o: OpId, pc: Pc, i: Ino)
    requires o in s.jobs && (InFlight(s.jobs[o].(pc := pc)) <==> InFlight(s.jobs[o]))
    ensures Busy(s, i) ==> Busy(At(s, o, pc), i)
  {
    if Busy(s, i) {
      var p :| p in s.jobs && SameIno(s.jobs[p], i) && InFlight(s.jobs[p]);
      assert p in At(s, o, pc).jobs;
    }
  }

  /** Nothing depends on this job: it has not started its data step, or its inode is gone. */
  predicate MayEnd(s: State, j: Job) {
    InFlight(j) && HasIno(j.req) ==> j.req.ino !in s.tree.fs
  }

  lemma EndKeepsInv(s: State, o: OpId)
    requires Inv(s) && o in s.jobs && MayEnd(s, s.jobs[o])
    ensures Inv(Gone(s, o))
  {
    hide JobData, FileData, LockInv, Namespace.Valid, WellTyped, Admissible;
    var s' := Gone(s, o);
    LockRemove(s.jobs, o);
    forall p | p in s'.jobs ensures JobData(s', s'.jobs[p]) {
      JobDataFrame(s, s', s'.jobs[p]);
    }
    forall i | i in s'.tree.fs ensures FileData(s', i) {
      BusyEnd(s, o, i);
      FileDataFrame(s, s', i);
    }
  }

  lemma BusyEnd(s: State, o: OpId, i: Ino)
    requires o in s.jobs && MayEnd(s, s.jobs[o]) && i in s.tree.fs
    ensures Busy(s, i) ==> Busy(Gone(s, o), i)
  {
    if Busy(s, i) {
      var p :| p in s.jobs && SameIno(s.jobs[p], i) && InFlight(s.jobs[p]);
      assert p in Gone(s, o).jobs;
    }
  }

  // ---- Taking locks ----

  lemma TakeInnerRead(s: State, o: OpId, pc: Pc)
    requires LockInv(s.jobs) && o in s.jobs && CanReadInner(s, false) && (pc.Checking? || pc.Snapping?)
    requires (pc.Checking? ==> OnDispatcher(s.jobs[o])) && (pc.Snapping? ==> HoldsInodeWrite(s.jobs[o]))
    ensures LockInv(At(s, o, pc).jobs)
  {
    forall q | q in s.jobs && q != o ensures Compatible(s.jobs[o].(pc := pc), s.jobs[q]) &&
      Compatible(s.jobs[q], s.jobs[o].(pc := pc)) {
      assert Compatible(s.jobs[o], s.jobs[q]) && Compatible(s.jobs[q], s.jobs[o]);
    }
    LockUpdate(s.jobs, o, s.jobs[o].(pc := pc));
  }

  lemma TakeInnerWrite(s: State, o: OpId, pc: Pc)
    requires LockInv(s.jobs) && o in s.jobs && CanWriteInner(s) &&
      (pc.Committing? || pc.Syncing? || pc.Flushing? || pc.MetaHolds?)
    requires (pc.Committing? ==> s.jobs[o].pc.Written?) && (pc.Syncing? ==> s.jobs[o].pc.SyncHoldsInode?)
    requires pc.Flushing? || pc.MetaHolds? ==> s.jobs[o].pc.Dispatched?
    ensures LockInv(At(s, o, pc).jobs)
  {
    forall q | q in s.jobs && q != o ensures Compatible(s.jobs[o].(pc := pc), s.jobs[q]) &&
      Compatible(s.jobs[q], s.jobs[o].(pc := pc)) {
      assert Compatible(s.jobs[o], s.jobs[q]) && Compatible(s.jobs[q], s.jobs[o]);
    }
    LockUpdate(s.jobs, o, s.jobs[o].(pc := pc));
  }

  lemma TakeInode(s: State, o: OpId, pc: Pc)
    requires LockInv(s.jobs) && o in s.jobs && HasIno(s.jobs[o].req)
    requires (pc.Locked? && s.jobs[o].pc.Waiting?) || (pc.SyncHoldsInode? && s.jobs[o].pc.Dispatched? &&
      s.jobs[o].req.Sync?)
    requires if IsWriter(s.jobs[o].req) then CanWriteInode(s, s.jobs[o].req.ino)
      else CanReadInode(s, s.jobs[o].req.ino, false)
    ensures LockInv(At(s, o, pc).jobs)
  {
    forall q | q in s.jobs && q != o ensures Compatible(s.jobs[o].(pc := pc), s.jobs[q]) &&
      Compatible(s.jobs[q], s.jobs[o].(pc := pc)) {
      assert Compatible(s.jobs[o], s.jobs[q]) && Compatible(s.jobs[q], s.jobs[o]);
    }
    LockUpdate(s.jobs, o, s.jobs[o].(pc := pc));
  }

  /** Whoever holds an inode lock keeps every other job on that inode out of its data step. */
  lemma HolderExcludes(s: State, o: OpId)
    requires Typed(s) && LockInv(s.jobs) && o in s.jobs && HasIno(s.jobs[o].req)
    requires HoldsInodeWrite(s.jobs[o]) || HoldsInodeRead(s.jobs[o])
    ensures forall p | p in s.jobs && p != o && SameIno(s.jobs[p], s.jobs[o].req.ino) :: !InFlight(s.jobs[p])
    ensures !InFlight(s.jobs[o]) ==> !Busy(s, s.jobs[o].req.ino)
  {
    forall p | p in s.jobs && p != o && SameIno(s.jobs[p], s.jobs[o].req.ino) ensures !InFlight(s.jobs[p]) {
      assert Compatible(s.jobs[p], s.jobs[o]) && WellTyped(s.jobs[p]);
    }
  }

  // ---- The steps before the data step ----

  lemma ArriveKeepsInv(s: State, o: OpId, req: Request)
    requires Inv(s) && Enabled(s, Arrive(o, req), false)
    ensures Inv(Do(s, Arrive(o, req)))
  {
    hide JobData, FileData, Namespace.Valid, Admissible;
    var s' := Do(s, Arrive(o, req));
    var j := Job(req, Dispatched);
    LockUpdate(s.jobs, o, j);
    DispatchedData(s', j);
    forall p | p in s'.jobs ensures JobData(s', s'.jobs[p]) {
      if p != o { JobDataFrame(s, s', s'.jobs[p]); }
    }
    forall i | i in s'.tree.fs ensures FileData(s', i) {
      BusyArrive(s, o, j, i);
      FileDataFrame(s, s', i);
    }
  }

  lemma DispatchedData(s: State, j: Job)
    requires WellTyped(j) && j.pc.Dispatched?
    ensures JobData(s, j)
  {
  }

  lemma BusyArrive(s: State, o: OpId, j: Job, i: Ino)
    requires o !in s.jobs
    ensures Busy(s, i) ==> Busy(s.(jobs := s.jobs[o := j]), i)
  {
    if Busy(s, i) {
      var p :| p in s.jobs && SameIno(s.jobs[p], i) && InFlight(s.jobs[p]);
      assert p in s.jobs[o := j];
    }
  }

  lemma LiveIsBelowNext(s: State, i: Ino)
    requires Namespace.Valid(s.tree) && i in s.tree.fs
    ensures i < s.tree.next
  {
  }

  lemma CheckKeepsInv(s: State, a: Action)
    requires Inv(s) && Enabled(s, a, false) && (a.BeginCheck? || a.Check?)
    ensures Inv(Do(s, a))
  {
    hide Inv, LockInv, JobData, CanReadInner, FileData, Namespace.Valid;
    var o := a.o;
    InvFacts(s, o);
    match a
    case BeginCheck(_) =>
      TakeInnerRead(s, o, Checking);
      PlainData(s, s.jobs[o].(pc := Checking));
      MoveKeepsInv(s, o, Checking);
    case Check(_) =>
      var i := s.jobs[o].req.ino;
      if IsFile(s.tree.fs, i) {
        var pc := Queued(if s.jobs[o].req.ReadData? then Some(s.tree.fs[i]) else None);
        LockWeaken(s.jobs, o, s.jobs[o].(pc := pc));
        LiveIsBelowNext(s, i);
        SeenData(s, s.jobs[o].(pc := pc));
        MoveKeepsInv(s, o, pc);
      } else {
        EndKeepsInv(s, o);
      }
  }

  lemma DispatcherStepKeepsInv(s: State, a: Action)
    requires Inv(s) && Enabled(s, a, false) && (a.SyncLock? || a.SyncInner? || a.BeginFlush? || a.BeginMeta?)
    ensures Inv(Do(s, a))
  {
    hide Inv, LockInv, JobData, CanWriteInner, CanReadInode, FileData, Namespace.Valid;
    var o := a.o;
    InvFacts(s, o);
    match a
    case SyncLock(_) =>
      TakeInode(s, o, SyncHoldsInode);
      PlainData(s, s.jobs[o].(pc := SyncHoldsInode));
      MoveKeepsInv(s, o, SyncHoldsInode);
    case SyncInner(_) =>
      TakeInnerWrite(s, o, Syncing);
      PlainData(s, s.jobs[o].(pc := Syncing));
      MoveKeepsInv(s, o, Syncing);
    case BeginFlush(_) =>
      TakeInnerWrite(s, o, Flushing);
      PlainData(s, s.jobs[o].(pc := Flushing));
      MoveKeepsInv(s, o, Flushing);
    case BeginMeta(_) =>
      TakeInnerWrite(s, o, MetaHolds);
      PlainData(s, s.jobs[o].(pc := MetaHolds));
      MoveKeepsInv(s, o, MetaHolds);
  }

  lemma InvFacts(s: State, o: OpId)
    requires Inv(s) && o in s.jobs
    ensures Typed(s) && WellTyped(s.jobs[o]) && LockInv(s.jobs) && JobData(s, s.jobs[o]) && Namespace.Valid(s.tree)
    ensures s.jobs[o].req.Meta? ==> OnDispatcher(s.jobs[o])
  {
  }

  lemma PlainData(s: State, j: Job)
    requires WellTyped(j) && (j.pc.Checking? || j.pc.SyncHoldsInode? || j.pc.Syncing? || j.pc.Flushing? ||
      j.pc.MetaHolds?)
    ensures JobData(s, j)
  {
  }

  lemma SeenData(s: State, j: Job)
    requires WellTyped(j) && j.pc.Queued? && HasIno(j.req) && IsFile(s.tree.fs, j.req.ino) && j.req.ino < s.tree.next
    requires j.pc.seen.Some? ==> j.pc.seen.value == s.tree.fs[j.req.ino]
    ensures JobData(s, j)
  {
  }

  lemma WorkerStepKeepsInv(s: State, a: Action)
    requires Inv(s) && Enabled(s, a, false)
    requires a.Pick? || a.LockInode? || a.BeginSnap?
    ensures Inv(Do(s, a))
  {
    hide Inv, LockInv, CanReadInner, CanReadInode, CanWriteInode, FileData, Namespace.Valid, Represents, Running;
    var o := a.o;
    InvFacts(s, o);
    var j := s.jobs[o];
    match a
    case Pick(_) =>
      LockWeaken(s.jobs, o, j.(pc := Waiting(j.pc.seen)));
      MoveKeepsInv(s, o, Waiting(j.pc.seen));
    case LockInode(_) =>
      TakeInode(s, o, Locked(j.pc.seen));
      MoveKeepsInv(s, o, Locked(j.pc.seen));
    case BeginSnap(_) =>
      TakeInnerRead(s, o, Snapping);
      MoveKeepsInv(s, o, Snapping);
  }

  lemma SnapKeepsInv(s: State, a: Action)
    requires Inv(s) && Enabled(s, a, false) && (a.Snap? || a.BeginCommit? || a.FinishRead?)
    ensures Inv(Do(s, a))
  {
    hide Inv, LockInv, CanWriteInner, FileData, Namespace.Valid, Represents;
    var o := a.o;
    InvFacts(s, o);
    var j := s.jobs[o];
    match a
    case Snap(_) =>
      if j.req.ino in s.tree.fs {
        LockWeaken(s.jobs, o, j.(pc := Ready(s.tree.fs[j.req.ino])));
        MoveKeepsInv(s, o, Ready(s.tree.fs[j.req.ino]));
      } else {
        EndKeepsInv(s, o);
      }
    case BeginCommit(_) =>
      TakeInnerWrite(s, o, Committing(j.pc.node, j.pc.key, j.pc.size));
      MoveKeepsInv(s, o, Committing(j.pc.node, j.pc.key, j.pc.size));
    case FinishRead(_) => EndKeepsInv(s, o);
  }

  // ---- The data step ----

  lemma FitsWithinLimits(req: Request, size: nat)
    requires IsWriter(req) && KernelLimits(req) && size < LIMIT
    ensures OpFits(size, FileOpOf(req)) && NewSize(req, size) < LIMIT
    ensures forall flat: seq<Byte> | |flat| == size :: |Apply(flat, FileOpOf(req))| == NewSize(req, size)
  {
    KernelSizesFit(size);
    KernelSizesFit(NewSize(req, size));
  }

  /** A change to the data file of inode `i` is no concern of a job that is not in flight there. */
  lemma OtherJobUntouched(s: State, s': State, j: Job, i: Ino)
    requires WellTyped(j) && JobData(s, j) && !(SameIno(j, i) && InFlight(j))
    requires s'.tree == s.tree && s'.base == s.base && s'.log == s.log
    requires forall k | k != i :: Get(s'.files, k) == Get(s.files, k) && (k in s'.synced ==> k in s.synced)
    ensures JobData(s', j)
  {
    hide Represents, Replay, Apply;
  }

  /** Jobs on other inodes are as busy as before. */
  lemma BusyElsewhere(s: State, s': State, o: OpId, k: Ino)
    requires o in s.jobs && !SameIno(s.jobs[o], k)
    requires forall p | p in s.jobs && p != o :: p in s'.jobs && s'.jobs[p] == s.jobs[p]
    ensures Busy(s, k) ==> Busy(s', k)
  {
    if Busy(s, k) {
      var p :| p in s.jobs && SameIno(s.jobs[p], k) && InFlight(s.jobs[p]);
      assert p in s'.jobs;
    }
  }

  /** The finished data step leaves the file holding what the commit will record. */
  lemma EndDataInFlight(s: State, o: OpId, after: Option<seq<Cell>>, files: map<Ino, seq<Cell>>)
    requires Inv(s) && o in s.jobs && s.jobs[o].pc.Writing? && s.jobs[o].req.ino in s.tree.fs && IsWriter(s.jobs[o].req)
    requires DataEffect(s.jobs[o].pc.before, s.jobs[o].pc.key, s.jobs[o].pc.node.size, FileOpOf(s.jobs[o].req), after)
    requires Get(files, s.jobs[o].req.ino) == after
    ensures var j := s.jobs[o];
            InFlightData(s.(files := files), j.req, j.pc.node, j.pc.key, NewSize(j.req, j.pc.node.size))
  {
    hide Represents, Replay, Apply, Namespace.Valid, LockInv, FileOpOf;
    var j := s.jobs[o];
    InvFacts(s, o);
    assert FileData(s, j.req.ino);
    assert Content(s.(files := files), j.req.ino) == Content(s, j.req.ino);
    FitsWithinLimits(j.req, j.pc.node.size);
    assert |Content(s, j.req.ino)| == j.pc.node.size;
  }

  /** Only job `o` and the data file of its inode `i` differ, and the job is in flight or the inode is gone. */
  ghost predicate DataStep(s: State, s': State, o: OpId, i: Ino) {
    && o in s.jobs && SameIno(s.jobs[o], i) && HoldsInodeWrite(s.jobs[o])
    && s'.tree == s.tree && s'.base == s.base && s'.log == s.log
    && s'.disk == s.disk && s'.dirty == s.dirty && s'.workers == s.workers
    && s'.jobs - {o} == s.jobs - {o}
    && (if o in s'.jobs then SameIno(s'.jobs[o], i) && InFlight(s'.jobs[o]) else i !in s.tree.fs)
    && i !in s'.synced
    && forall k | k != i ::
         && Get(s'.files, k) == Get(s.files, k) && Get(s'.durable, k) == Get(s.durable, k)
         && (k in s'.synced <==> k in s.synced)
  }

  lemma DataStepFile(s: State, s': State, o: OpId, i: Ino, k: Ino)
    requires Inv(s) && DataStep(s, s', o, i) && k in s'.tree.fs
    ensures FileData(s', k)
  {
    hide Represents, Replay, Namespace.Valid, Admissible, LockInv, JobData, WellTyped;
    assert FileData(s, k);
    if k == i {
      assert o in s'.jobs;
    } else {
      forall p | p in s.jobs && p != o ensures p in s'.jobs && s'.jobs[p] == s.jobs[p] {
        assert p in s.jobs - {o} && p in s'.jobs - {o};
        assert (s.jobs - {o})[p] == (s'.jobs - {o})[p];
      }
      BusyElsewhere(s, s', o, k);
    }
  }

  lemma DataStepJob(s: State, s': State, o: OpId, i: Ino, p: OpId)
    requires Inv(s) && DataStep(s, s', o, i) && p in s'.jobs && p != o
    ensures p in s.jobs && s'.jobs[p] == s.jobs[p] && WellTyped(s'.jobs[p]) && JobData(s', s'.jobs[p])
  {
    hide Represents, Replay, Namespace.Valid, Admissible, JobData, FileData;
    assert p in s'.jobs - {o} && p in s.jobs - {o};
    assert (s.jobs - {o})[p] == (s'.jobs - {o})[p];
    HolderExcludes(s, o);
    OtherJobUntouched(s, s', s.jobs[p], i);
  }

  lemma DataStepKeepsInv(s: State, s': State, o: OpId, i: Ino)
    requires Inv(s) && DataStep(s, s', o, i) && LockInv(s'.jobs)
    requires o in s'.jobs ==> WellTyped(s'.jobs[o]) && JobData(s', s'.jobs[o])
    ensures Inv(s')
  {
    hide Represents, Replay, Namespace.Valid, Admissible, LockInv, JobData, FileData, WellTyped;
    forall p | p in s'.jobs ensures WellTyped(s'.jobs[p]) && JobData(s', s'.jobs[p]) &&
      (p != o ==> p in s.jobs && s'.jobs[p] == s.jobs[p]) {
      if p != o { DataStepJob(s, s', o, i, p); }
    }
    forall k | k in s'.tree.fs ensures FileData(s', k) { DataStepFile(s, s', o, i, k); }
  }

  /** The data step starts from a file that holds exactly the committed contents. */
  lemma BeginDataFacts(s: State, o: OpId)
    requires Inv(s) && o in s.jobs && s.jobs[o].pc.Ready?
    ensures WellTyped(s.jobs[o])
    ensures var i, node := s.jobs[o].req.ino, s.jobs[o].pc.node;
            && Current(s, i, node)
            && (i in s.tree.fs ==> node.key.Some? && Represents(Get(s.files, i), node.key.value, node.size,
              Content(s, i)))
  {
    hide Represents, Replay, Content, Namespace.Valid, Admissible, LockInv;
    InvFacts(s, o);
    HolderExcludes(s, o);
    assert s.jobs[o].req.ino in s.tree.fs ==> FileData(s, s.jobs[o].req.ino);
  }

  lemma BeginDataJob(s: State, o: OpId, fresh': Key, partial: Option<seq<Cell>>, flushed: Option<seq<Cell>>)
    requires Inv(s) && o in s.jobs && s.jobs[o].pc.Ready? && IsWriter(s.jobs[o].req)
    ensures var s' := DoBeginData(s, o, fresh', partial, flushed);
            o in s'.jobs && WellTyped(s'.jobs[o]) && JobData(s', s'.jobs[o])
  {
    hide Inv, Represents, Replay;
    BeginDataFacts(s, o);
    var s' := DoBeginData(s, o, fresh', partial, flushed);
    assert Content(s', s.jobs[o].req.ino) == Content(s, s.jobs[o].req.ino);
  }

  lemma BeginDataKeepsInv(s: State, o: OpId, fresh': Key, partial: Option<seq<Cell>>, flushed: Option<seq<Cell>>)
    requires Inv(s) && o in s.jobs && s.jobs[o].pc.Ready? && IsWriter(s.jobs[o].req)
    ensures Inv(DoBeginData(s, o, fresh', partial, flushed))
  {
    hide Inv, LockInv, WellTyped, JobData, DoBeginData, DataStep;
    BeginDataIsStep(s, o, fresh', partial, flushed);
    BeginDataJob(s, o, fresh', partial, flushed);
    DataStepKeepsInv(s, DoBeginData(s, o, fresh', partial, flushed), o, s.jobs[o].req.ino);
  }

  lemma BeginDataIsStep(s: State, o: OpId, fresh': Key, partial: Option<seq<Cell>>, flushed: Option<seq<Cell>>)
    requires Inv(s) && o in s.jobs && s.jobs[o].pc.Ready? && IsWriter(s.jobs[o].req)
    ensures var s' := DoBeginData(s, o, fresh', partial, flushed);
            DataStep(s, s', o, s.jobs[o].req.ino) && LockInv(s'.jobs)
  {
    hide Inv, LockInv, WellTyped, JobData;
    InvFacts(s, o);
    var s' := DoBeginData(s, o, fresh', partial, flushed);
    LockWeaken(s.jobs, o, s'.jobs[o]);
    assert s'.jobs - {o} == s.jobs - {o};
  }

  lemma EndDataKeepsInv(s: State, o: OpId, ok: bool, after: Option<seq<Cell>>, flushed: Option<seq<Cell>>)
    requires Inv(s) && Enabled(s, EndData(o, ok, after, flushed), false)
    ensures Inv(DoEndData(s, o, ok, after, flushed))
  {
    hide Inv, LockInv, WellTyped, JobData, DataEffect, NewSize;
    InvFacts(s, o);
    var s' := DoEndData(s, o, ok, after, flushed);
    if ok { LockWeaken(s.jobs, o, s'.jobs[o]); EndDataJob(s, o, after, flushed); } else { LockRemove(s.jobs, o); }
    assert s'.jobs - {o} == s.jobs - {o};
    EndDataUnsynced(s, o);
    DataStepKeepsInv(s, s', o, s.jobs[o].req.ino);
  }

  lemma EndDataUnsynced(s: State, o: OpId)
    requires Inv(s) && o in s.jobs && s.jobs[o].pc.Writing? && HasIno(s.jobs[o].req)
    ensures s.jobs[o].req.ino !in s.synced
  {
    hide Namespace.Valid, LockInv, FileData, Represents, Replay;
    InvFacts(s, o);
  }

  lemma EndDataJob(s: State, o: OpId, after: Option<seq<Cell>>, flushed: Option<seq<Cell>>)
    requires Inv(s) && Enabled(s, EndData(o, true, after, flushed), false)
    ensures var s' := DoEndData(s, o, true, after, flushed);
            o in s'.jobs && WellTyped(s'.jobs[o]) && JobData(s', s'.jobs[o])
  {
    hide Inv, DataEffect, Represents, Replay, Apply, LockInv;
    InvFacts(s, o);
    var s' := DoEndData(s, o, true, after, flushed);
    var i := s.jobs[o].req.ino;
    if i in s.tree.fs { EndDataInFlight(s, o, after, s'.files); }
    assert Content(s', i) == Content(s.(files := s'.files), i);
  }

  // ---- Commit ----

  /** Committing appends one operation to the history of one inode. */
  lemma CommitContent(s: State, o: OpId, k: Ino)
    requires o in s.jobs && s.jobs[o].pc.Committing? && IsWriter(s.jobs[o].req) && s.jobs[o].req.ino in s.tree.fs
    ensures Content(DoCommit(s, o), k) ==
      if k == s.jobs[o].req.ino then Apply(Content(s, k), FileOpOf(s.jobs[o].req)) else Content(s, k)
  {
    hide Replay, Apply, FileOpOf;
    var i := s.jobs[o].req.ino;
    if k == i {
      ReplaySnoc(if i in s.base then s.base[i] else [], if i in s.log then s.log[i] else [], FileOpOf(s.jobs[o].req));
    }
  }

  lemma CommitFile(s: State, o: OpId, k: Ino)
    requires Inv(s) && o in s.jobs && s.jobs[o].pc.Committing? && s.jobs[o].req.ino in s.tree.fs
    requires k in s.tree.fs
    ensures IsWriter(s.jobs[o].req) && FileData(DoCommit(s, o), k)
  {
    hide Replay, Apply, Content, LockInv, Namespace.Valid, Admissible, BlockAt, BlockCount, DataFileLen, BlockOf;
    InvFacts(s, o);
    var s' := DoCommit(s, o);
    CommitContent(s, o, k);
    assert FileData(s, k);
    if k != s.jobs[o].req.ino { BusyElsewhere(s, s', o, k); }
  }

  lemma CommitJob(s: State, o: OpId, p: OpId)
    requires Inv(s) && o in s.jobs && s.jobs[o].pc.Committing? && s.jobs[o].req.ino in s.tree.fs
    requires p in s.jobs && p != o
    ensures IsWriter(s.jobs[o].req) && WellTyped(s.jobs[p]) && JobData(DoCommit(s, o), s.jobs[p])
  {
    hide Replay, Apply, Content, Represents, Namespace.Valid, Admissible, FileData;
    InvFacts(s, o);
    InvFacts(s, p);
    assert Compatible(s.jobs[p], s.jobs[o]);
    if HasIno(s.jobs[p].req) { CommitContent(s, o, s.jobs[p].req.ino); }
  }

  lemma CommitTree(s: State, o: OpId)
    requires Inv(s) && o in s.jobs && s.jobs[o].pc.Committing? && s.jobs[o].req.ino in s.tree.fs
    ensures IsWriter(s.jobs[o].req)
    ensures var s' := DoCommit(s, o); Namespace.Valid(s'.tree) && MetaOk(s') && Bounds(s')
  {
    hide Namespace.IsTree, LockInv, JobData, FileData, Replay;
    InvFacts(s, o);
    SameShapeKeepsTree(s.tree, s.jobs[o].req.ino, DoCommit(s, o).tree.fs[s.jobs[o].req.ino]);
    LiveIsBelowNext(s, s.jobs[o].req.ino);
  }

  lemma CommitKeepsInv(s: State, o: OpId)
    requires Inv(s) && o in s.jobs && s.jobs[o].pc.Committing? && IsWriter(s.jobs[o].req)
    ensures Inv(DoCommit(s, o))
  {
    hide Namespace.Valid, LockInv, JobData, FileData, WellTyped, MetaOk, Bounds, FileOpOf;
    if s.jobs[o].req.ino !in s.tree.fs {
      EndKeepsInv(s, o);
    } else {
      var s' := DoCommit(s, o);
      CommitTree(s, o);
      LockRemove(s.jobs, o);
      forall p | p in s'.jobs ensures JobData(s', s'.jobs[p]) { CommitJob(s, o, p); }
      forall k | k in s'.tree.fs ensures FileData(s', k) { CommitFile(s, o, k); }
    }
  }

  // ---- Sync ----

  lemma SyncFile(s: State, o: OpId, k: Ino)
    requires Inv(s) && o in s.jobs && s.jobs[o].pc.Syncing? && k in s.tree.fs
    ensures HasIno(s.jobs[o].req) && FileData(DoSync(s, o), k)
  {
    hide Replay, LockInv, Namespace.Valid, Admissible, Represents, JobData;
    InvFacts(s, o);
    HolderExcludes(s, o);
    BusyEnd(s, o, k);
    assert FileData(s, k);
    assert Content(DoSync(s, o), k) == Content(s, k);
  }

  lemma SyncJob(s: State, o: OpId, p: OpId)
    requires Inv(s) && o in s.jobs && s.jobs[o].pc.Syncing? && p in s.jobs && p != o
    ensures HasIno(s.jobs[o].req) && WellTyped(s.jobs[p]) && JobData(DoSync(s, o), s.jobs[p])
  {
    hide Replay, Apply, Represents, Namespace.Valid, Admissible, FileData, LockInv;
    InvFacts(s, o);
    InvFacts(s, p);
    HolderExcludes(s, o);
  }

  lemma FinishSyncKeepsInv(s: State, o: OpId)
    requires Inv(s) && o in s.jobs && s.jobs[o].pc.Syncing? && HasIno(s.jobs[o].req)
    ensures Inv(DoSync(s, o))
  {
    hide Namespace.Valid, LockInv, JobData, FileData, WellTyped, Admissible;
    var s' := DoSync(s, o);
    LockRemove(s.jobs, o);
    forall p | p in s'.jobs ensures JobData(s', s'.jobs[p]) { SyncJob(s, o, p); }
    forall k | k in s'.tree.fs ensures FileData(s', k) { SyncFile(s, o, k); }
  }

  /** Saving the index alone: it already agreed with the tree, or it does now. */
  lemma FlushFile(s: State, o: OpId, k: Ino)
    requires Inv(s) && o in s.jobs && s.jobs[o].pc.Flushing? && k in s.tree.fs
    ensures FileData(DoFlush(s, o), k)
  {
    hide Replay, LockInv, Namespace.Valid, Admissible, Represents, JobData;
    BusyEnd(s, o, k);
    assert FileData(s, k);
    assert Content(DoFlush(s, o), k) == Content(s, k);
  }

  lemma FlushJob(s: State, o: OpId, p: OpId)
    requires Inv(s) && p in s.jobs && p != o
    ensures WellTyped(s.jobs[p]) && JobData(DoFlush(s, o), s.jobs[p])
  {
    hide Replay, Apply, Represents, Namespace.Valid, Admissible, FileData, LockInv;
    InvFacts(s, p);
  }

  lemma FinishFlushKeepsInv(s: State, o: OpId)
    requires Inv(s) && o in s.jobs && s.jobs[o].pc.Flushing?
    ensures Inv(DoFlush(s, o))
  {
    hide Namespace.Valid, LockInv, JobData, FileData, WellTyped, Admissible;
    var s' := DoFlush(s, o);
    LockRemove(s.jobs, o);
    forall p | p in s'.jobs ensures JobData(s', s'.jobs[p]) { FlushJob(s, o, p); }
    forall k | k in s'.tree.fs ensures FileData(s', k) { FlushFile(s, o, k); }
  }

  // ---- Namespace changes ----

  /** A surviving inode keeps its kind, size and key; a new one is numbered past all others. */
  lemma MetaNodes(s: State, op: Namespace.Op, k: Ino)
    requires Namespace.Valid(s.tree)
    ensures var (tree, reply) := Namespace.Step(s.tree, op);
            && tree.next >= s.tree.next
            && (k in tree.fs && k in s.tree.fs ==>
                  tree.fs[k].kind == s.tree.fs[k].kind && tree.fs[k].size == s.tree.fs[k].size &&
                    tree.fs[k].key == s.tree.fs[k].key)
            && (k in tree.fs && k !in s.tree.fs ==>
                  k >= s.tree.next && (tree.fs[k].kind == File ==> tree.fs[k].size == 0 && tree.fs[k].key.Some?))
  {
    hide Namespace.IsTree, Namespace.Step;
    StepAllocates(s.tree, op);
    StepKeepsData(s.tree, op);
  }

  lemma NeverWritten(s: State, k: Ino)
    requires Bounds(s) && k >= s.tree.next
    ensures Content(s, k) == []
  {
  }

  lemma EmptyFile(contents: Option<seq<Cell>>, key: Key)
    ensures Represents(contents, key, 0, [])
  {
  }

  lemma MetaFile(s: State, o: OpId, k: Ino)
    requires Inv(s) && o in s.jobs && s.jobs[o].pc.MetaHolds? && s.jobs[o].req.Meta?
    requires !Namespace.Step(s.tree, s.jobs[o].req.op).1.Failed? && k in DoMeta(s, o).tree.fs
    ensures FileData(DoMeta(s, o), k)
  {
    hide Replay, LockInv, Namespace.Valid, Namespace.Step, Admissible, Represents, JobData;
    MetaNodes(s, s.jobs[o].req.op, k);
    var s' := DoMeta(s, o);
    assert Content(s', k) == Content(s, k);
    if k in s.tree.fs {
      assert FileData(s, k);
      BusyEnd(s, o, k);
    } else if s'.tree.fs[k].kind == File {
      NeverWritten(s, k);
      EmptyFile(Get(s'.files, k), s'.tree.fs[k].key.value);
      EmptyFile(Get(s'.durable, k), s'.tree.fs[k].key.value);
    }
  }

  lemma MetaJob(s: State, o: OpId, p: OpId)
    requires Inv(s) && o in s.jobs && s.jobs[o].pc.MetaHolds? && s.jobs[o].req.Meta? && p in s.jobs && p != o
    requires !Namespace.Step(s.tree, s.jobs[o].req.op).1.Failed?
    ensures WellTyped(s.jobs[p]) && JobData(DoMeta(s, o), s.jobs[p]) && !s.jobs[p].req.Meta?
  {
    hide Replay, Apply, Represents, Namespace.Valid, Namespace.Step, Admissible, FileData, JobData;
    InvFacts(s, p);
    assert Compatible(s.jobs[p], s.jobs[o]);
    MetaNodes(s, s.jobs[o].req.op, s.jobs[p].req.ino);
    JobSurvives(s, DoMeta(s, o), s.jobs[p]);
  }

  /** A job only depends on its own inode, and on that only while the inode is live. */
  lemma JobSurvives(s: State, s': State, j: Job)
    requires WellTyped(j) && JobData(s, j) && HasIno(j.req)
    requires s'.base == s.base && s'.log == s.log && s'.synced == s.synced && s'.tree.next >= s.tree.next
    requires j.req.ino in s'.tree.fs && j.req.ino < s.tree.next ==>
      && j.req.ino in s.tree.fs && Get(s'.files, j.req.ino) == Get(s.files, j.req.ino)
      && s'.tree.fs[j.req.ino].kind == s.tree.fs[j.req.ino].kind
      && s'.tree.fs[j.req.ino].size == s.tree.fs[j.req.ino].size &&
        s'.tree.fs[j.req.ino].key == s.tree.fs[j.req.ino].key
    ensures JobData(s', j)
  {
    hide Represents, Replay, Apply;
  }

  lemma FinishMetaKeepsInv(s: State, o: OpId)
    requires Inv(s) && o in s.jobs && s.jobs[o].pc.MetaHolds? && s.jobs[o].req.Meta?
    ensures Inv(DoMeta(s, o))
  {
    hide Namespace.Valid, Namespace.Step, LockInv, JobData, FileData, WellTyped, Admissible;
    if Namespace.Step(s.tree, s.jobs[o].req.op).1.Failed? {
      EndKeepsInv(s, o);
    } else {
      var s' := DoMeta(s, o);
      LockRemove(s.jobs, o);
      StepKeepsTree(s.tree, s.jobs[o].req.op);
      MetaNodes(s, s.jobs[o].req.op, 0);
      forall p | p in s'.jobs ensures JobData(s', s'.jobs[p]) && !s'.jobs[p].req.Meta? { MetaJob(s, o, p); }
      forall k | k in s'.tree.fs ensures FileData(s', k) { MetaFile(s, o, k); }
    }
  }

  // ---- Whole runs ----

  lemma MoveStepKeepsInv(s: State, a: Action)
    requires Inv(s) && Enabled(s, a, false) && MovesOnly(a)
    ensures Inv(Do(s, a))
  {
    hide Inv, Enabled, Do;
    match a
    case BeginCheck(_) => CheckKeepsInv(s, a);
    case Check(_) => CheckKeepsInv(s, a);
    case Pick(_) => WorkerStepKeepsInv(s, a);
    case LockInode(_) => WorkerStepKeepsInv(s, a);
    case BeginSnap(_) => WorkerStepKeepsInv(s, a);
    case Snap(_) => SnapKeepsInv(s, a);
    case BeginCommit(_) => SnapKeepsInv(s, a);
    case FinishRead(_) => SnapKeepsInv(s, a);
    case _ => DispatcherStepKeepsInv(s, a);
  }

  /** Every step of every job keeps the invariant, whatever the locks prefer. */
  lemma StepKeepsInv(s: State, a: Action)
    requires Inv(s) && Enabled(s, a, false)
    ensures Inv(Do(s, a))
  {
    hide Inv, LockInv, JobData, FileData, Namespace.Valid, Admissible, Move, DoBeginData, DoEndData, DoCommit, DoSync,
      DoFlush, DoMeta, CanReadInner, CanWriteInner, CanReadInode, CanWriteInode, DataEffect, Running, KernelLimits;
    if !a.Arrive? { InvFacts(s, a.o); }
    match a
    case Arrive(o, req) => ArriveKeepsInv(s, o, req);
    case BeginData(o, fresh', partial, flushed) => BeginDataKeepsInv(s, o, fresh', partial, flushed);
    case EndData(o, ok, after, flushed) => EndDataKeepsInv(s, o, ok, after, flushed);
    case Commit(o) => CommitKeepsInv(s, o);
    case FinishSync(o) => FinishSyncKeepsInv(s, o);
    case FinishFlush(o) => FinishFlushKeepsInv(s, o);
    case FinishMeta(o) => FinishMetaKeepsInv(s, o);
    case _ => MoveStepKeepsInv(s, a);
  }
}
