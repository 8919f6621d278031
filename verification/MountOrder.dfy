/** Commits take effect in the order in which their jobs took the inode lock. */
module MountOrder {
  import opened Prelude
  import opened SymbolicCrypto
  import opened FlatFile
  import opened BlockStore
  import opened BlockHistory
  import opened Namespace
  import opened MountModel
  import opened MountSafety
  import opened MountRuns
  import opened MountProgress

  // ---- The operations in lock order ----

  /** A writer takes the lock of inode `i`. */
  predicate LocksFor(s: State, a: Action, i: Ino) {
    a.LockInode? && a.o in s.jobs && IsWriter(s.jobs[a.o].req) && s.jobs[a.o].req.ino == i
  }

  /** Job `o` of step `m` is still the same job at step `n`, and commits to inode `i` there. */
  predicate CommitsAt(states: seq<State>, actions: seq<Action>, i: Ino, o: OpId, m: nat, n: nat)
    requires n < |actions| < |states|
  {
    actions[n] == Commit(o) && i in states[n].tree.fs && forall x | m <= x <= n :: o in states[x].jobs
  }

  ghost predicate WillCommit(states: seq<State>, actions: seq<Action>, i: Ino, o: OpId, m: nat, k: nat)
    requires k <= |actions| < |states|
  {
    exists n: nat :: m <= n < k && CommitsAt(states, actions, i, o, m, n)
  }

  /** What the first `m` steps locked inode `i` for, in order, as far as it commits within `k` steps. */
  ghost function LockOrder(states: seq<State>, actions: seq<Action>, i: Ino, m: nat, k: nat): seq<FileOp>
    requires m <= k <= |actions| < |states|
  {
    if m == 0 then []
    else LockOrder(states, actions, i, m - 1, k) + LockedBy(states, actions, i, m - 1, k)
  }

  ghost function LockedBy(states: seq<State>, actions: seq<Action>, i: Ino, m: nat, k: nat): seq<FileOp>
    requires m < k <= |actions| < |states|
  {
    if LocksFor(states[m], actions[m], i) && WillCommit(states, actions, i, actions[m].o, m + 1, k)
    then [FileOpOf(states[m].jobs[actions[m].o].req)] else []
  }

  // ---- Who holds the lock ----

  predicate Holds(s: State, o: OpId, i: Ino) {
    o in s.jobs && SameIno(s.jobs[o], i) && HoldsInodeWrite(s.jobs[o])
  }

  lemma HoldsOnce(s: State, o: OpId, p: OpId, i: Ino)
    requires LockInv(s.jobs) && Holds(s, o, i) && Holds(s, p, i)
    ensures o == p
  {
    assert o != p ==> Compatible(s.jobs[o], s.jobs[p]);
  }

  /** A moving job holds the inode lock afterwards if it did before or has just taken it. */
  lemma MoveHolds(s: State, a: Action)
    requires Typed(s) && Enabled(s, a, false) && MovesOnly(a) && a.o in Do(s, a).jobs
    ensures HoldsInodeWrite(Do(s, a).jobs[a.o]) <==>
      HoldsInodeWrite(s.jobs[a.o]) || (a.LockInode? && IsWriter(s.jobs[a.o].req))
  {
    hide CanReadInner, CanWriteInner, CanReadInode, CanWriteInode, Running, KernelLimits, IsFile,
      DoCommit, DoBeginData, DoEndData, DoSync, DoFlush, DoMeta, DataEffect;
    assert WellTyped(s.jobs[a.o]);
  }

  lemma BeginDataHolds(s: State, o: OpId, fresh': Key, partial: Option<seq<Cell>>, flushed: Option<seq<Cell>>)
    requires o in s.jobs && s.jobs[o].pc.Ready? && IsWriter(s.jobs[o].req)
    ensures var jobs := DoBeginData(s, o, fresh', partial, flushed).jobs; o in jobs && HoldsInodeWrite(jobs[o])
  {
    hide Put, Get;
  }

  lemma EndDataHolds(s: State, o: OpId, ok: bool, after: Option<seq<Cell>>, flushed: Option<seq<Cell>>)
    requires o in s.jobs && s.jobs[o].pc.Writing? && IsWriter(s.jobs[o].req)
    ensures var jobs := DoEndData(s, o, ok, after, flushed).jobs; o in jobs ==> HoldsInodeWrite(jobs[o])
  {
    hide Put, NewSize;
  }

  lemma DataHolds(s: State, a: Action)
    requires Typed(s) && Enabled(s, a, false) && (a.BeginData? || a.EndData?) && a.o in Do(s, a).jobs
    ensures HoldsInodeWrite(Do(s, a).jobs[a.o]) && HoldsInodeWrite(s.jobs[a.o])
  {
    hide DataEffect, DoBeginData, DoEndData, FileOpOf;
    assert WellTyped(s.jobs[a.o]);
    match a
    case BeginData(o, fresh', partial, flushed) => BeginDataHolds(s, o, fresh', partial, flushed);
    case EndData(o, ok, after, flushed) => EndDataHolds(s, o, ok, after, flushed);
  }

  lemma StepHolds(s: State, a: Action)
    requires Typed(s) && Enabled(s, a, false) && !a.Arrive? && a.o in Do(s, a).jobs
    ensures HoldsInodeWrite(Do(s, a).jobs[a.o]) <==>
      HoldsInodeWrite(s.jobs[a.o]) || (a.LockInode? && IsWriter(s.jobs[a.o].req))
  {
    hide Typed, Do, HoldsInodeWrite, CanReadInner, CanWriteInner, CanReadInode, CanWriteInode, Running, DataEffect;
    if MovesOnly(a) { MoveHolds(s, a); }
    else if a.BeginData? || a.EndData? { DataHolds(s, a); }
    else { EndIsNearer(s, a); }
  }

  /** Every other job stays as it is. */
  lemma OthersStay(s: State, a: Action, p: OpId)
    requires Typed(s) && Enabled(s, a, false) && p != a.o
    ensures p in Do(s, a).jobs <==> p in s.jobs
    ensures p in s.jobs ==> Do(s, a).jobs[p] == s.jobs[p]
  {
    if a.Arrive? {
    } else {
      hide Enabled, Do, Typed;
      StepIsNearer(s, a);
      var jobs' := Do(s, a).jobs;
      assert p in jobs' - {a.o} <==> p in jobs';
      assert p in s.jobs - {a.o} <==> p in s.jobs;
      if p in s.jobs { assert (jobs' - {a.o})[p] == (s.jobs - {a.o})[p]; }
    }
  }

  /** The lock of an inode changes hands only when it is taken or its holder ends. */
  lemma HoldsAfter(s: State, a: Action, o: OpId, i: Ino)
    requires Typed(s) && Enabled(s, a, false)
    ensures Holds(Do(s, a), o, i) <==>
      o in Do(s, a).jobs && (Holds(s, o, i) || (o == a.o && LocksFor(s, a, i)))
    ensures o in s.jobs && o in Do(s, a).jobs ==> Do(s, a).jobs[o].req == s.jobs[o].req
  {
    if o != a.o {
      hide Enabled, Do, Typed;
      OthersStay(s, a, o);
    } else if a.Arrive? {
    } else {
      hide Enabled, Do, Typed, HoldsInodeWrite;
      StepIsNearer(s, a);
      if o in Do(s, a).jobs { StepHolds(s, a); }
    }
  }

  lemma LockIsFree(s: State, a: Action, o: OpId, i: Ino)
    requires Enabled(s, a, false) && LocksFor(s, a, i)
    ensures !Holds(s, o, i)
  {
  }

  lemma CommitterHolds(s: State, a: Action, i: Ino)
    requires CommitOf(s, a, i) != []
    ensures Holds(s, a.o, i) && CommitOf(s, a, i) == [FileOpOf(s.jobs[a.o].req)]
  {
  }

  // ---- Lock order is commit order ----

  /** The operation of the job that holds the lock at step `m`, if it commits within `k` steps. */
  ghost function Pending(states: seq<State>, actions: seq<Action>, i: Ino, m: nat, k: nat): seq<FileOp>
    requires m <= k <= |actions| < |states|
  {
    if o :| Holds(states[m], o, i) && WillCommit(states, actions, i, o, m, k)
    then [FileOpOf(states[m].jobs[o].req)] else []
  }

  lemma PendingIs(states: seq<State>, actions: seq<Action>, i: Ino, m: nat, k: nat, o: OpId)
    requires m <= k <= |actions| < |states| && LockInv(states[m].jobs) && Holds(states[m], o, i)
    ensures Pending(states, actions, i, m, k) ==
      if WillCommit(states, actions, i, o, m, k) then [FileOpOf(states[m].jobs[o].req)] else []
  {
    hide WillCommit, LockInv, FileOpOf;
    forall p | Holds(states[m], p, i) ensures p == o { HoldsOnce(states[m], o, p, i); }
  }

  /** A job that is still there commits later exactly if it commits later from the next step on. */
  lemma WillCommitLater(states: seq<State>, actions: seq<Action>, i: Ino, o: OpId, m: nat, k: nat)
    requires m < k <= |actions| < |states| && o in states[m].jobs
    ensures WillCommit(states, actions, i, o, m, k) <==>
      || (actions[m] == Commit(o) && i in states[m].tree.fs)
      || (o in states[m + 1].jobs && WillCommit(states, actions, i, o, m + 1, k))
  {
    if WillCommit(states, actions, i, o, m, k) {
      var n: nat :| m <= n < k && CommitsAt(states, actions, i, o, m, n);
      if n > m { assert CommitsAt(states, actions, i, o, m + 1, n); }
    }
    if actions[m] == Commit(o) && i in states[m].tree.fs {
      assert CommitsAt(states, actions, i, o, m, m);
    }
    if o in states[m + 1].jobs && WillCommit(states, actions, i, o, m + 1, k) {
      var n: nat :| m + 1 <= n < k && CommitsAt(states, actions, i, o, m + 1, n);
      assert CommitsAt(states, actions, i, o, m, n);
    }
  }

  lemma LockStep(states: seq<State>, actions: seq<Action>, i: Ino, m: nat, k: nat)
    requires m < k <= |actions| < |states| && IsStep(states[m], actions[m], states[m + 1])
    requires LockInv(states[m + 1].jobs) && LocksFor(states[m], actions[m], i)
    ensures Pending(states, actions, i, m, k) + LockedBy(states, actions, i, m, k)
         == CommitOf(states[m], actions[m], i) + Pending(states, actions, i, m + 1, k)
  {
    hide WillCommit, LockInv, FileOpOf, Enabled, Do, Typed, Holds;
    var s, a := states[m], actions[m];
    forall o ensures !Holds(s, o, i) { LockIsFree(s, a, o, i); }
    LockerStays(s, a, i);
    PendingIs(states, actions, i, m + 1, k, a.o);
  }

  lemma LockerStays(s: State, a: Action, i: Ino)
    requires Typed(s) && Enabled(s, a, false) && LocksFor(s, a, i)
    ensures a.o in Do(s, a).jobs && Holds(Do(s, a), a.o, i) && Do(s, a).jobs[a.o].req == s.jobs[a.o].req
  {
  }

  lemma CommitIsCommit(s: State, a: Action, i: Ino)
    requires Typed(s) && Enabled(s, a, false) && Holds(s, a.o, i)
    ensures CommitOf(s, a, i) == if a == Commit(a.o) && i in s.tree.fs then [FileOpOf(s.jobs[a.o].req)] else []
    ensures a.Commit? ==> a.o !in Do(s, a).jobs
  {
    hide CanReadInner, CanWriteInner, CanReadInode, CanWriteInode, Running, DataEffect, FileOpOf, Do;
    if a.Commit? { EndIsNearer(s, a); }
  }

  /** A step of a run in which `o` holds the lock of `i`. */
  lemma HeldStep(states: seq<State>, actions: seq<Action>, i: Ino, m: nat, k: nat, o: OpId)
    requires m < k <= |actions| < |states| && IsStep(states[m], actions[m], states[m + 1])
    requires LockInv(states[m].jobs) && LockInv(states[m + 1].jobs) && Holds(states[m], o, i)
    ensures Pending(states, actions, i, m, k) + LockedBy(states, actions, i, m, k)
         == CommitOf(states[m], actions[m], i) + Pending(states, actions, i, m + 1, k)
  {
    hide WillCommit, LockInv, FileOpOf, Enabled, Do, Typed, Holds, CommitOf;
    var s, a := states[m], actions[m];
    HeldFacts(s, a, o, i);
    PendingIs(states, actions, i, m, k, o);
    WillCommitLater(states, actions, i, o, m, k);
    HoldsAfter(s, a, o, i);
    if o in states[m + 1].jobs {
      PendingIs(states, actions, i, m + 1, k, o);
    } else {
      var s' := states[m + 1];
      forall p ensures !Holds(s', p, i) {
        HoldsAfter(s, a, p, i);
        if Holds(s, p, i) { HoldsOnce(s, o, p, i); }
      }
    }
  }

  lemma HeldFacts(s: State, a: Action, o: OpId, i: Ino)
    requires Typed(s) && Enabled(s, a, false) && LockInv(s.jobs) && Holds(s, o, i)
    ensures !LocksFor(s, a, i)
    ensures CommitOf(s, a, i) == if a == Commit(o) && i in s.tree.fs then [FileOpOf(s.jobs[o].req)] else []
    ensures a == Commit(o) ==> o !in Do(s, a).jobs
    ensures o in s.jobs && (IsWriter(s.jobs[o].req))
  {
    hide Enabled, Do, Typed, FileOpOf, CommitOf, LockInv;
    if LocksFor(s, a, i) { LockIsFree(s, a, o, i); }
    if CommitOf(s, a, i) != [] {
      CommitterHolds(s, a, i);
      HoldsOnce(s, o, a.o, i);
    }
    if a.o == o { CommitIsCommit(s, a, i); }
  }

  /** A step that neither takes nor finds the lock of `i` taken. */
  lemma FreeStep(states: seq<State>, actions: seq<Action>, i: Ino, m: nat, k: nat)
    requires m < k <= |actions| < |states| && IsStep(states[m], actions[m], states[m + 1])
    requires !LocksFor(states[m], actions[m], i) && forall o :: !Holds(states[m], o, i)
    ensures Pending(states, actions, i, m, k) + LockedBy(states, actions, i, m, k)
         == CommitOf(states[m], actions[m], i) + Pending(states, actions, i, m + 1, k)
  {
    hide WillCommit, FileOpOf, Enabled, Do, Typed, Holds, CommitOf;
    var s, a := states[m], actions[m];
    if CommitOf(s, a, i) != [] { CommitterHolds(s, a, i); }
    var s' := states[m + 1];
    forall p ensures !Holds(s', p, i) { HoldsAfter(s, a, p, i); }
  }

  /** At every step, what was locked for is what was committed and what the holder will commit. */
  lemma {:induction false} LockedIsCommittedOrPending(states: seq<State>, actions: seq<Action>, i: Ino, m: nat, k: nat)
    requires IsRun(states, actions) && Mounted(states[0]) && m <= k <= |actions|
    ensures LockOrder(states, actions, i, m, k) == CommitsOf(states, actions, i, m) + Pending(states, actions, i, m, k)
  {
    hide Inv, LockInv, Holds, WillCommit, LockedBy, CommitOf, Typed, Enabled, Do, Pending;
    if m == 0 {
      NoneAtMount(states, actions, i, k);
    } else {
      LockedIsCommittedOrPending(states, actions, i, m - 1, k);
      var s, a := states[m - 1], actions[m - 1];
      assert IsStep(s, a, states[m]);
      RunLocks(states, actions, m - 1);
      RunLocks(states, actions, m);
      if LocksFor(s, a, i) { LockStep(states, actions, i, m - 1, k); }
      else if o :| Holds(s, o, i) { HeldStep(states, actions, i, m - 1, k, o); }
      else { FreeStep(states, actions, i, m - 1, k); }
      Regroup(CommitsOf(states, actions, i, m - 1), Pending(states, actions, i, m - 1, k),
              LockedBy(states, actions, i, m - 1, k), CommitOf(s, a, i), Pending(states, actions, i, m, k));
    }
  }

  lemma Regroup(done: seq<FileOp>, pending: seq<FileOp>, locked: seq<FileOp>, committed: seq<FileOp>,
    pending': seq<FileOp>)
    requires pending + locked == committed + pending'
    ensures done + pending + locked == done + committed + pending'
  {
    assert done + pending + locked == done + (pending + locked);
  }

  lemma NoneAtMount(states: seq<State>, actions: seq<Action>, i: Ino, k: nat)
    requires k <= |actions| < |states| && Mounted(states[0])
    ensures Pending(states, actions, i, 0, k) == []
  {
  }

  lemma RunLocks(states: seq<State>, actions: seq<Action>, m: nat)
    requires IsRun(states, actions) && Mounted(states[0]) && m < |states|
    ensures LockInv(states[m].jobs)
  {
    hide IsRun, Mounted, LockInv;
    MountedInv(states[0]);
    RunKeepsInv(states, actions, m);
  }

  /** At the end of any run nothing is pending: commit order is lock order. */
  lemma CommitOrderIsLockOrder(states: seq<State>, actions: seq<Action>, i: Ino, k: nat)
    requires IsRun(states, actions) && Mounted(states[0]) && k <= |actions|
    ensures LockOrder(states, actions, i, k, k) == CommitsOf(states, actions, i, k)
  {
    LockedIsCommittedOrPending(states, actions, i, k, k);
    hide IsRun, Mounted, CommitsOf, LockOrder;
    assert Pending(states, actions, i, k, k) == [];
  }

  /**
    In every interleaving, at every point: a live file with no writer between its data step
    and its commit has a data file that holds, under its key, exactly as many bytes as its
    entry says: the serial replay, in the order in which the inode lock was taken, of the
    operations whose jobs have committed.
   */
  lemma ContentsAreSerialInLockOrder(states: seq<State>, actions: seq<Action>, k: nat, i: Ino)
    requires IsRun(states, actions) && Mounted(states[0]) && k <= |actions|
    requires IsFile(states[k].tree.fs, i) && !Busy(states[k], i)
    ensures var s := states[k];
            && s.tree.fs[i].key.Some?
            && Represents(Get(s.files, i), s.tree.fs[i].key.value, s.tree.fs[i].size,
                          Replay(Base(states[0], i), LockOrder(states, actions, i, k, k)))
  {
    hide IsRun, Mounted, CommitsOf, LockOrder, Represents, Replay, Busy;
    RunShape(states, actions);
    CommitOrderIsLockOrder(states, actions, i, k);
    ContentsAreSerial(states, actions, k, i);
  }
}
