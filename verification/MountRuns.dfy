/** What whole runs of a mounted volume promise: serial contents, stable reads, durable syncs. */
module MountRuns {
  import opened Prelude
  import opened SymbolicCrypto
  import opened FlatFile
  import opened BlockStore
  import opened BlockHistory
  import opened Namespace
  import opened MountModel
  import opened MountSafety

  // ---- Runs from a mount ----

  /** The state after mounting a volume whose data files hold `base`; no job has arrived yet. */
  ghost predicate Mounted(s: State) {
    && s.workers >= 1 && s.jobs == map[] && s.log == map[] && s.synced == {}
    && !s.dirty && s.disk == s.tree.fs
    && Namespace.Valid(s.tree) && (forall i | i in s.base :: i < s.tree.next)
    && forall i | i in s.tree.fs && s.tree.fs[i].kind == File :: StoredWell(s, i)
  }

  ghost predicate StoredWell(s: State, i: Ino)
    requires i in s.tree.fs
  {
    && s.tree.fs[i].key.Some? && s.tree.fs[i].size < LIMIT
    && Represents(Get(s.files, i), s.tree.fs[i].key.value, s.tree.fs[i].size, Base(s, i))
  }

  function Base(s: State, i: Ino): seq<Byte> { if i in s.base then s.base[i] else [] }

  /** A volume that was never written to, just mounted. */
  function FreshMount(workers: nat): State {
    State(FRESH_TREE, map[], map[], workers, false, FRESH_TREE.fs, map[], {}, map[], map[])
  }

  lemma FreshMountIsMounted(workers: nat)
    requires workers >= 1
    ensures Mounted(FreshMount(workers))
  {
    FreshTreeValid();
    hide Namespace.IsTree;
  }

  lemma MountedInv(s: State)
    requires Mounted(s)
    ensures Inv(s)
  {
    hide Namespace.IsTree, BlockAt, BlockCount, DataFileLen;
    forall i | i in s.tree.fs ensures FileData(s, i) {
      assert Content(s, i) == Base(s, i);
      assert s.tree.fs[i].kind == File ==> StoredWell(s, i);
    }
  }

  /** Consecutive states of a run; the locks may favour anyone. */
  ghost predicate IsRun(states: seq<State>, actions: seq<Action>) {
    && |states| == |actions| + 1
    && forall k | 0 <= k < |actions| :: IsStep(states[k], actions[k], states[k + 1])
  }

  ghost predicate IsStep(s: State, a: Action, s': State) {
    Typed(s) && Enabled(s, a, false) && s' == Do(s, a)
  }

  lemma {:induction false} RunKeepsInv(states: seq<State>, actions: seq<Action>, k: nat)
    requires IsRun(states, actions) && Inv(states[0]) && k < |states|
    ensures Inv(states[k])
  {
    hide Inv, Typed, Enabled, Do;
    if k > 0 {
      RunKeepsInv(states, actions, k - 1);
      assert IsStep(states[k - 1], actions[k - 1], states[k]);
      StepKeepsInv(states[k - 1], actions[k - 1]);
    }
  }

  // ---- Contents are the serial replay of the commits ----

  /** The operation this step commits to inode `i`, if it does. */
  function CommitOf(s: State, a: Action, i: Ino): seq<FileOp> {
    if && a.Commit? && a.o in s.jobs && s.jobs[a.o].pc.Committing? && IsWriter(s.jobs[a.o].req)
       && s.jobs[a.o].req.ino == i && i in s.tree.fs
    then [FileOpOf(s.jobs[a.o].req)] else []
  }

  /** The operations committed to inode `i` in the first `k` steps, in order. */
  function CommitsOf(states: seq<State>, actions: seq<Action>, i: Ino, k: nat): seq<FileOp>
    requires k <= |actions| && |states| == |actions| + 1
  {
    if k == 0 then [] else CommitsOf(states, actions, i, k - 1) + CommitOf(states[k - 1], actions[k - 1], i)
  }

  function LogOf(s: State, i: Ino): seq<FileOp> { if i in s.log then s.log[i] else [] }

  lemma MoveOnlyMoves(s: State, a: Action)
    requires Typed(s) && Enabled(s, a, false) && MovesOnly(a)
    ensures SameStore(s, Do(s, a))
  {
    hide Enabled, WellTyped, Move;
  }

  lemma DataDoesNotLog(s: State, a: Action)
    requires Typed(s) && Enabled(s, a, false) && (a.Arrive? || a.BeginData? || a.EndData?)
    ensures Do(s, a).base == s.base && Do(s, a).log == s.log
  {
    hide Enabled, Typed, DoCommit, DoSync, DoFlush, DoMeta, Move, Put, Get, NewSize, FileOpOf;
  }

  lemma SyncAndMetaDoNotLog(s: State, a: Action)
    requires Typed(s) && Enabled(s, a, false) && (a.FinishSync? || a.FinishFlush? || a.FinishMeta?)
    ensures Do(s, a).base == s.base && Do(s, a).log == s.log
  {
    hide Enabled, Typed, Namespace.Step, DoCommit, DoBeginData, DoEndData, Move, Put, Get;
  }

  lemma OnlyCommitLogs(s: State, a: Action)
    requires Typed(s) && Enabled(s, a, false) && !a.Commit?
    ensures Do(s, a).base == s.base && Do(s, a).log == s.log
  {
    hide Enabled, Typed, Do;
    if MovesOnly(a) { MoveOnlyMoves(s, a); }
    else if a.FinishSync? || a.FinishFlush? || a.FinishMeta? { SyncAndMetaDoNotLog(s, a); }
    else { DataDoesNotLog(s, a); }
  }

  lemma CommitLogs(s: State, o: OpId, i: Ino)
    requires o in s.jobs && s.jobs[o].pc.Committing? && IsWriter(s.jobs[o].req)
    ensures DoCommit(s, o).base == s.base && LogOf(DoCommit(s, o), i) == LogOf(s, i) + CommitOf(s, Commit(o), i)
  {
    hide FileOpOf, CommitNode;
  }

  lemma CommitEnabled(s: State, a: Action)
    requires Typed(s) && Enabled(s, a, false) && a.Commit?
    ensures a.o in s.jobs && s.jobs[a.o].pc.Committing? && IsWriter(s.jobs[a.o].req) && Do(s, a) == DoCommit(s, a.o)
  {
    hide DoCommit, FileOpOf;
    assert WellTyped(s.jobs[a.o]);
  }

  lemma StepLogs(s: State, a: Action, i: Ino)
    requires Typed(s) && Enabled(s, a, false)
    ensures Do(s, a).base == s.base && LogOf(Do(s, a), i) == LogOf(s, i) + CommitOf(s, a, i)
  {
    hide Typed, Enabled, Do, DoCommit;
    if a.Commit? {
      CommitEnabled(s, a);
      CommitLogs(s, a.o, i);
    } else {
      OnlyCommitLogs(s, a);
    }
  }

  lemma {:induction false} RunLogs(states: seq<State>, actions: seq<Action>, i: Ino, k: nat)
    requires IsRun(states, actions) && states[0].log == map[] && k <= |actions|
    ensures states[k].base == states[0].base && LogOf(states[k], i) == CommitsOf(states, actions, i, k)
  {
    hide Typed, Enabled, Do, CommitOf;
    if k > 0 {
      RunLogs(states, actions, i, k - 1);
      assert IsStep(states[k - 1], actions[k - 1], states[k]);
      StepLogs(states[k - 1], actions[k - 1], i);
    }
  }

  /**
    In every interleaving, at every point: a live file with no writer between its data step
    and its commit has a data file that holds, under its key, exactly as many bytes as its
    entry says, and they are the serial replay of the operations committed so far.
   */
  lemma ContentsAreSerial(states: seq<State>, actions: seq<Action>, k: nat, i: Ino)
    requires IsRun(states, actions) && Mounted(states[0]) && k <= |actions|
    requires IsFile(states[k].tree.fs, i) && !Busy(states[k], i)
    ensures var s := states[k];
            && s.tree.fs[i].key.Some?
            && Represents(Get(s.files, i), s.tree.fs[i].key.value, s.tree.fs[i].size,
                          Replay(Base(states[0], i), CommitsOf(states, actions, i, k)))
  {
    hide Mounted, IsRun, CommitsOf, Represents, Replay, Busy, Namespace.Valid, LockInv, JobData;
    assert |states| == |actions| + 1 by { RunShape(states, actions); }
    MountedInv(states[0]);
    MountedLog(states[0]);
    RunKeepsInv(states, actions, k);
    RunLogs(states, actions, i, k);
    assert FileData(states[k], i);
  }

  lemma RunShape(states: seq<State>, actions: seq<Action>)
    requires IsRun(states, actions)
    ensures |states| == |actions| + 1
  {
  }

  lemma MountedLog(s: State)
    requires Mounted(s)
    ensures s.log == map[]
  {
  }

  /** While one writer holds the inode, no other job of it locks, writes or commits. */
  lemma OnlyTheHolderCommits(s: State, o: OpId, a: Action)
    requires Inv(s) && Enabled(s, a, false) && o in s.jobs && HoldsInodeWrite(s.jobs[o])
    ensures a.o != o && (a.Commit? || a.BeginData? || a.EndData? || a.LockInode? || a.SyncLock?) ==>
      HasIno(s.jobs[a.o].req) && s.jobs[a.o].req.ino != s.jobs[o].req.ino
  {
    hide Namespace.Valid, FileData, JobData, DataEffect, CanReadInner, CanWriteInner;
    if !a.Arrive? && a.o != o {
      assert Compatible(s.jobs[a.o], s.jobs[o]) && Compatible(s.jobs[o], s.jobs[a.o]);
      assert WellTyped(s.jobs[a.o]);
    }
  }

  // ---- Isolation ----

  predicate SameFile(s: State, s': State, i: Ino) {
    i in s.tree.fs && i in s'.tree.fs ==>
      Get(s'.files, i) == Get(s.files, i) && s'.tree.fs[i].size == s.tree.fs[i].size &&
        s'.tree.fs[i].key == s.tree.fs[i].key
  }

  lemma DataStepElsewhere(s: State, a: Action, i: Ino)
    requires Typed(s) && Enabled(s, a, false) && (a.BeginData? || a.EndData?)
    requires HasIno(s.jobs[a.o].req) && s.jobs[a.o].req.ino != i
    ensures SameFile(s, Do(s, a), i)
  {
    hide Enabled, Typed, FileOpOf, NewSize, DoCommit;
  }

  lemma CommitElsewhere(s: State, a: Action, i: Ino)
    requires Typed(s) && Enabled(s, a, false) && a.Commit?
    requires HasIno(s.jobs[a.o].req) && s.jobs[a.o].req.ino != i
    ensures SameFile(s, Do(s, a), i)
  {
    hide Enabled, Typed, FileOpOf, NewSize, DoBeginData, DoEndData;
  }

  lemma MetaSparesFiles(s: State, a: Action, i: Ino)
    requires Namespace.Valid(s.tree) && Typed(s) && Enabled(s, a, false) && a.FinishMeta?
    ensures SameFile(s, Do(s, a), i)
  {
    assert WellTyped(s.jobs[a.o]);
    hide Typed, Namespace.Valid, Namespace.Step;
    MetaNodes(s, s.jobs[a.o].req.op, i);
  }

  /** While one job holds an inode lock, no step of another job changes that file, short of removing it. */
  lemma HeldFileIsStable(s: State, o: OpId, a: Action)
    requires Inv(s) && Enabled(s, a, false) && o in s.jobs && a.o != o
    requires HasIno(s.jobs[o].req) && (HoldsInodeWrite(s.jobs[o]) || HoldsInodeRead(s.jobs[o]))
    ensures SameFile(s, Do(s, a), s.jobs[o].req.ino)
  {
    hide Enabled, Namespace.Valid, LockInv, JobData, FileData, Namespace.Step, Move, DoCommit, DoBeginData, DoEndData,
      DoMeta;
    if MovesOnly(a) { MoveOnlyMoves(s, a); }
    else if a.FinishMeta? { MetaSparesFiles(s, a, s.jobs[o].req.ino); }
    else if a.BeginData? || a.EndData? || a.Commit? {
      HolderKeepsOut(s, o, a);
      if a.Commit? { CommitElsewhere(s, a, s.jobs[o].req.ino); } else { DataStepElsewhere(s, a, s.jobs[o].req.ino); }
    }
  }

  lemma HolderKeepsOut(s: State, o: OpId, a: Action)
    requires Inv(s) && Enabled(s, a, false) && o in s.jobs && a.o != o && (a.BeginData? || a.EndData? || a.Commit?)
    requires HasIno(s.jobs[o].req) && (HoldsInodeWrite(s.jobs[o]) || HoldsInodeRead(s.jobs[o]))
    ensures HasIno(s.jobs[a.o].req) && s.jobs[a.o].req.ino != s.jobs[o].req.ino
  {
    hide Namespace.Valid, FileData, JobData, DataEffect;
    assert Compatible(s.jobs[a.o], s.jobs[o]) && WellTyped(s.jobs[a.o]);
  }

  // ---- Reads ----

  /**
    A reader that holds its inode lock answers from the committed contents. Its size is the
    one seen at dispatch; the reply is what a read made now would return exactly when the
    sizes agree on the blocks touched (or there is no data file, the file being empty).
   */
  lemma ReadIsSerialIffCurrent(s: State, o: OpId, r: Result<seq<Byte>, IoError>)
    requires Inv(s) && o in s.jobs && s.jobs[o].pc.Locked? && s.jobs[o].req.ReadData?
    requires s.jobs[o].req.ino in s.tree.fs
    requires var seen := s.jobs[o].pc.seen;
             seen.Some? && seen.value.key.Some?
             && ReadReply(Get(s.files, s.jobs[o].req.ino), seen.value.key.value, seen.value.size, s.jobs[o].req.offset,
               s.jobs[o].req.len, r)
    ensures var req := s.jobs[o].req;
            r == Ok(Slice(Content(s, req.ino), req.offset, req.len)) <==>
              || req.ino !in s.files
              || ReadsCurrent(s.jobs[o].pc.seen.value.size, s.tree.fs[req.ino].size, req.offset, req.len)
    ensures var req := s.jobs[o].req;
            s.jobs[o].pc.seen.value.size == s.tree.fs[req.ino].size ==>
              r == Ok(Slice(Content(s, req.ino), req.offset, req.len))
  {
    hide Namespace.Valid, LockInv, Represents, Replay, ReadReply, ReadsCurrent, Slice, Admissible;
    InvFacts(s, o);
    HolderExcludes(s, o);
    var i := s.jobs[o].req.ino;
    assert FileData(s, i);
    StaleReplyExact(Get(s.files, i), s.tree.fs[i].key.value, s.tree.fs[i].size, Content(s, i),
                    s.jobs[o].pc.seen.value.size, s.jobs[o].req.offset, s.jobs[o].req.len, r);
    CurrentSizeReadsCurrent(s.tree.fs[i].size, s.jobs[o].req.offset, s.jobs[o].req.len);
  }

  lemma CurrentSizeReadsCurrent(size: nat, offset: nat, len: nat)
    ensures ReadsCurrent(size, size, offset, len)
  {
  }

  // ---- Sync ----

  /** This step starts changing the data file of inode `i`. */
  predicate StartsWrite(s: State, a: Action, i: Ino) {
    a.BeginData? && a.o in s.jobs && SameIno(s.jobs[a.o], i)
  }

  lemma BeginDataIsWriter(s: State, a: Action)
    requires Typed(s) && Enabled(s, a, false) && a.BeginData?
    ensures a.o in s.jobs && IsWriter(s.jobs[a.o].req)
  {
    assert WellTyped(s.jobs[a.o]);
  }

  lemma SyncedStep(s: State, a: Action, i: Ino)
    requires Typed(s) && Enabled(s, a, false) && i in s.synced && !StartsWrite(s, a, i)
    ensures i in Do(s, a).synced
  {
    hide Enabled, Typed, Namespace.Step, Put, Get, Move, FileOpOf, NewSize;
    if MovesOnly(a) { MoveOnlyMoves(s, a); }
    if a.BeginData? { BeginDataIsWriter(s, a); }
  }

  lemma SyncedIsNotCommitted(s: State, a: Action, i: Ino)
    requires Inv(s) && i in s.synced
    ensures CommitOf(s, a, i) == []
  {
    hide Namespace.Valid, LockInv, FileData, Represents, Replay, Apply, Admissible;
    if a.Commit? && a.o in s.jobs { InvFacts(s, a.o); }
  }

  /** Until its next data step, a synced inode stays synced with the same contents. */
  lemma SyncedStays(s: State, a: Action, i: Ino)
    requires Inv(s) && Enabled(s, a, false) && i in s.synced && !StartsWrite(s, a, i)
    ensures i in Do(s, a).synced && Content(Do(s, a), i) == Content(s, i)
  {
    hide Enabled, Do, Typed, CommitOf, Replay;
    SyncedStep(s, a, i);
    SyncedIsNotCommitted(s, a, i);
    StepLogs(s, a, i);
    assert LogOf(s, i) + [] == LogOf(s, i);
  }

  lemma SyncTakesHold(s: State, a: Action)
    requires Typed(s) && Enabled(s, a, false) && a.FinishSync?
    ensures HasIno(s.jobs[a.o].req) && s.jobs[a.o].req.ino in Do(s, a).synced
    ensures Content(Do(s, a), s.jobs[a.o].req.ino) == Content(s, s.jobs[a.o].req.ino)
  {
    assert WellTyped(s.jobs[a.o]);
  }

  ghost predicate Quiet(states: seq<State>, actions: seq<Action>, from: nat, to: nat, i: Ino)
    requires |states| == |actions| + 1 && to <= |actions|
  {
    forall m | from <= m < to :: !StartsWrite(states[m], actions[m], i)
  }

  lemma {:induction false} SyncedRun(states: seq<State>, actions: seq<Action>, k: nat, n: nat, i: Ino)
    requires IsRun(states, actions) && Inv(states[0]) && k < n <= |actions|
    requires actions[k].FinishSync? && actions[k].o in states[k].jobs && SameIno(states[k].jobs[actions[k].o], i)
    requires Quiet(states, actions, k + 1, n, i)
    ensures i in states[n].synced && Content(states[n], i) == Content(states[k], i)
    decreases n
  {
    hide Inv, Typed, Enabled, Do, Content;
    assert IsStep(states[n - 1], actions[n - 1], states[n]);
    if n == k + 1 {
      SyncTakesHold(states[k], actions[k]);
    } else {
      SyncedRun(states, actions, k, n - 1, i);
      RunKeepsInv(states, actions, n - 1);
      SyncedStays(states[n - 1], actions[n - 1], i);
    }
  }

  /**
    Once fsync of inode `i` has answered, and until the next write or truncate of `i` starts,
    what a crash would leave agrees with itself: the durable index records a key and size
    under which the durable data file holds the contents at the time of the fsync.
   */
  lemma FsyncIsDurable(states: seq<State>, actions: seq<Action>, k: nat, n: nat, i: Ino)
    requires IsRun(states, actions) && Mounted(states[0]) && k < n <= |actions|
    requires actions[k].FinishSync? && actions[k].o in states[k].jobs && SameIno(states[k].jobs[actions[k].o], i)
    requires Quiet(states, actions, k + 1, n, i) && IsFile(states[n].tree.fs, i)
    ensures var s := states[n];
            && i in s.disk && s.disk[i].key.Some?
            && Represents(Get(s.durable, i), s.disk[i].key.value, s.disk[i].size, Content(states[k], i))
  {
    hide Mounted, IsRun, Quiet, Represents, Content, Namespace.Valid, LockInv, JobData;
    RunShape(states, actions);
    MountedInv(states[0]);
    SyncedRun(states, actions, k, n, i);
    RunKeepsInv(states, actions, n);
    assert FileData(states[n], i);
  }

  /**
    What a crash leaves of the data file of `i`. The directory `data/` is never synced, so
    the entry of a file made since the mount survives only if the crash happens to keep it.
   */
  function LeftByCrash(states: seq<State>, n: nat, i: Ino, kept: set<Ino>): Option<seq<Cell>>
    requires n < |states|
  {
    if i in states[0].files || i in kept then Get(states[n].durable, i) else None
  }

  /**
    Exactly when a synced file comes back after a crash: it is empty, or its data file was
    there when the volume was mounted, or the crash kept its new directory entry. Otherwise
    it has no data file, and every read of it returns nothing and reports success.
   */
  lemma FsyncSurvivesIff(states: seq<State>, actions: seq<Action>, k: nat, n: nat, i: Ino, kept: set<Ino>)
    requires IsRun(states, actions) && Mounted(states[0]) && k < n <= |actions|
    requires actions[k].FinishSync? && actions[k].o in states[k].jobs && SameIno(states[k].jobs[actions[k].o], i)
    requires Quiet(states, actions, k + 1, n, i) && IsFile(states[n].tree.fs, i)
    ensures var s, left := states[n], LeftByCrash(states, n, i, kept);
            && i in s.disk && s.disk[i].key.Some?
            && (Represents(left, s.disk[i].key.value, s.disk[i].size, Content(states[k], i)) <==>
                  Content(states[k], i) == [] || i in states[0].files || i in kept)
            && (!Represents(left, s.disk[i].key.value, s.disk[i].size, Content(states[k], i)) ==>
                  forall offset, len, r :: ReadReply(left, s.disk[i].key.value, s.disk[i].size, offset, len, r) ==>
                    r == Ok([]))
  {
    hide Mounted, IsRun, Quiet, Content, BlockAt, BlockOf, DataFileLen, BlockCount, ReadAnswer;
    RunShape(states, actions);
    FsyncIsDurable(states, actions, k, n, i);
  }

  // ---- The next mount ----

  /** What mounting again finds, after every job has drained and the index was clean. */
  function Remounted(s: State, next: Ino, workers: nat): State {
    var contents := map i | i in s.tree.fs && s.tree.fs[i].kind == File :: Content(s, i);
    State(Tree(s.disk, next), s.files, map[], workers, false, s.disk, s.durable, {}, contents, map[])
  }

  /** Runs go on across mounts: the next one starts from the contents this one ended with. */
  lemma DrainedRemounts(s: State, next: Ino, workers: nat)
    requires Inv(s) && s.jobs == map[] && !s.dirty && workers >= 1 && forall i | i in s.disk :: i < next
    ensures Mounted(Remounted(s, next, workers))
    ensures forall i | IsFile(s.tree.fs, i) :: Base(Remounted(s, next, workers), i) == Content(s, i)
  {
    hide Represents, Replay, LockInv, Namespace.IsTree;
    var s' := Remounted(s, next, workers);
    forall i | i in s'.tree.fs && s'.tree.fs[i].kind == File ensures StoredWell(s', i) {
      assert FileData(s, i) && !Busy(s, i);
    }
  }

  /** A clear `dirty` flag means the durable index is the tree in memory, at every point of every run. */
  lemma CleanMeansSaved(states: seq<State>, actions: seq<Action>, k: nat)
    requires IsRun(states, actions) && Mounted(states[0]) && k <= |actions|
    ensures Namespace.Valid(states[k].tree)
    ensures !states[k].dirty ==> states[k].disk == states[k].tree.fs
  {
    hide Mounted, IsRun, Namespace.Valid, LockInv;
    RunShape(states, actions);
    MountedInv(states[0]);
    RunKeepsInv(states, actions, k);
  }
}
