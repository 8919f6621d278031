/** `commit_rekey` and `recover` as programs on a backend directory. */
module RekeyCommit {
  import opened Prelude
  import opened RekeySwap

  datatype SwapError = StagingMissing

  /** The states a program has passed through are consecutive states of the machine. */
  ghost predicate IsPath(trace: seq<Sys>) {
    |trace| >= 1 && forall i | 0 <= i < |trace| - 1 :: trace[i + 1] == Next(trace[i])
  }

  lemma PathKeepsInv(trace: seq<Sys>, i: nat)
    requires IsPath(trace) && Inv(trace[0]) && i < |trace|
    ensures Inv(trace[i])
    decreases i
  {
    hide Inv, Next;
    if i > 0 {
      PathKeepsInv(trace, i - 1);
      assert trace[i - 1 + 1] == Next(trace[i - 1]);
      NextKeepsInv(trace[i - 1]);
    }
  }

  class Backend {
    var dir: Dir
    var pending: seq<DirOp>
    /** Every state so far, each one reached from the one before by a machine step. */
    ghost var trace: seq<Sys>

    ghost predicate Tracks()
      reads this
    {
      IsPath(trace) && trace[|trace| - 1].disk == Disk(dir, pending)
    }

    ghost function Now(): Sys
      requires trace != []
      reads this
    {
      trace[|trace| - 1]
    }

    constructor (s: Sys)
      ensures Tracks() && trace == [s] && dir == s.disk.dir && pending == s.disk.pending
    {
      dir, pending, trace := s.disk.dir, s.disk.pending, [s];
    }

    ghost method Advance()
      requires IsPath(trace) && Next(Now()).disk == Disk(dir, pending)
      modifies this`trace
      ensures Tracks() && trace == old(trace) + [Next(old(Now()))]
    {
      trace := trace + [Next(Now())];
    }

    method Exists(name: Name) returns (r: bool)
      ensures r <==> name in Live(Disk(dir, pending))
    {
      r := name in Live(Disk(dir, pending));
    }

    /** Create or truncate, write, sync the file: two machine steps. */
    method WriteSynced(name: Name, content: Content)
      requires Tracks()
      requires Next(Now()).disk == OpenTruncated(Now().disk, name)
      requires Next(Next(Now())).disk == WriteAndSync(Next(Now()).disk, name, content)
      modifies this
      ensures Tracks() && trace == old(trace) + [Next(old(Now())), Next(Next(old(Now())))]
    {
      hide Next, Live;
      pending := pending + [Put(name, Partial)];
      Advance();
      pending := Without(pending, name);
      if name in dir {
        dir := dir[name := content];
      } else {
        pending := pending + [Put(name, content)];
      }
      Advance();
    }

    method Rename(from: Name, to: Name)
      requires Tracks() && Next(Now()).disk == Issue(Now().disk, Move(from, to))
      modifies this
      ensures Tracks() && trace == old(trace) + [Next(old(Now()))]
    {
      pending := pending + [Move(from, to)];
      Advance();
    }

    method RemoveFile(name: Name)
      requires Tracks() && Next(Now()).disk == Issue(Now().disk, Drop(name))
      modifies this
      ensures Tracks() && trace == old(trace) + [Next(old(Now()))]
    {
      pending := pending + [Drop(name)];
      Advance();
    }

    method SyncBackend()
      requires Tracks() && Next(Now()).disk == SyncDir(Now().disk)
      modifies this
      ensures Tracks() && trace == old(trace) + [Next(old(Now()))]
    {
      dir := Live(Disk(dir, pending));
      pending := [];
      Advance();
    }

    /**
      Finishes an interrupted swap or refuses, on any directory; every state on the way is
      a machine state, so a crash at any point leaves one the machine's theorems speak of.
     */
    method Recover() returns (r: Result<(), SwapError>)
      requires Tracks() && Now().pc == R0
      modifies this
      ensures Tracks() && old(trace) <= trace
      ensures r.Ok? <==> RecoverFully(old(Live(Disk(dir, pending)))).Some?
      ensures r.Ok? ==> RecoverFully(old(Live(Disk(dir, pending)))) == Some(Live(Disk(dir, pending)))
      ensures r.Ok? && Marker in old(Live(Disk(dir, pending))) ==> pending == []
      ensures r.Err? || Marker !in old(Live(Disk(dir, pending))) ==> dir == old(dir) && pending == old(pending)
      ensures Inv(old(Now())) ==> Inv(Now())
    {
      hide Inv, Live, Next;
      RecoverFirst(Now());
      var marker := Exists(Marker);
      if !marker {
        Advance();
        return Ok(());
      }
      var header := Exists(HeaderStaging);
      var index := Exists(IndexStaging);
      if !header || !index {
        Advance();
        return Err(StagingMissing);
      }
      FinishSwap();
      r := Ok(());
    }

    method FinishSwap()
      requires Tracks() && Now().pc == R0
      requires RecoverFully(Live(Disk(dir, pending))).Some? && Marker in Live(Disk(dir, pending))
      modifies this
      ensures Tracks() && old(trace) <= trace
      ensures pending == [] && RecoverFully(old(Live(Disk(dir, pending)))) == Some(Live(Disk(dir, pending)))
      ensures Inv(old(Now())) ==> Inv(Now())
    {
      hide Inv, Live, Next, RecoverFully, SyncDir;
      RecoverPath(Now());
      Advance();
      Rename(IndexStaging, IndexFile);
      Rename(HeaderStaging, HeaderFile);
      SyncBackend();
      RemoveFile(Marker);
      SyncBackend();
    }

    /** Uncrashed, a commit ends with the header and index of the new generation in place. */
    method CommitRekey(gen: nat) returns (r: Result<(), SwapError>)
      requires Tracks() && Now().pc == C0 && Now().gen == gen && Inv(Now())
      modifies this
      ensures Tracks() && old(trace) <= trace
      ensures r.Ok? && pending == [] && Marker !in dir && Matched(dir, gen)
      ensures Inv(Now())
    {
      hide Inv, Live, Next, OpenTruncated, WriteAndSync, SyncDir, RecoverFully, Matched;
      CommitPath(Now());
      CommitEnds(Now());
      SyncedIsLive();
      WriteSynced(IndexStaging, IndexOf(gen));
      WriteSynced(HeaderStaging, HeaderOf(gen));
      SyncBackend();
      WriteSynced(Marker, MarkerByte);
      SyncBackend();
      RecoveredHasNoMarker(dir);
      r := Recover();
    }
  }

  lemma RecoverFirst(s: Sys)
    requires s.pc == R0
    ensures Next(s).disk == s.disk && (Inv(s) ==> Inv(Next(s)))
  {
    if Inv(s) { NextKeepsInv(s); }
  }

  lemma RecoveredHasNoMarker(d: Dir)
    ensures RecoverFully(d).Some? ==> Marker !in RecoverFully(d).value
  {
  }

  lemma SyncedIsLive()
    ensures forall d: Dir :: Live(Disk(d, [])) == d
  {
  }

  lemma LiveIssue(disk: Disk, op: DirOp)
    ensures Live(Issue(disk, op)) == ApplyOp(Live(disk), op)
  {
    assert (disk.pending + [op])[..|disk.pending|] == disk.pending;
  }

  lemma LiveSynced(disk: Disk)
    ensures Live(SyncDir(disk)) == Live(disk) == SyncDir(disk).dir
  {
  }

  /** The first three steps of a swap: both renames, as the process sees them. */
  lemma RenamePath(s: Sys)
    requires s.pc == R0 && RecoverFully(Live(s.disk)).Some? && Marker in Live(s.disk)
    ensures var s1 := Next(s); var s2 := Next(s1); var s3 := Next(s2);
            && s1.disk == s.disk
            && s2.disk == Issue(s1.disk, Move(IndexStaging, IndexFile))
            && s3.disk == Issue(s2.disk, Move(HeaderStaging, HeaderFile)) && s3.pc == R3
            && Live(s3.disk) == ApplyOp(ApplyOp(Live(s.disk), MOVE_INDEX), MOVE_HEADER)
  {
    hide Live, ApplyOp;
    LiveIssue(s.disk, MOVE_INDEX);
    LiveIssue(Issue(s.disk, MOVE_INDEX), MOVE_HEADER);
  }

  /** The last three: the sync, and the marker removed and synced. */
  lemma RemovePath(s: Sys)
    requires s.pc == R3
    ensures var s4 := Next(s); var s5 := Next(s4); var s6 := Next(s5);
            && s4.disk == SyncDir(s.disk)
            && s5.disk == Issue(s4.disk, Drop(Marker))
            && s6.disk == SyncDir(s5.disk)
            && s6.disk.pending == [] && Live(s6.disk) == Live(s.disk) - {Marker}
  {
    hide Live;
    LiveSynced(s.disk);
    LiveIssue(SyncDir(s.disk), Drop(Marker));
    LiveSynced(Issue(SyncDir(s.disk), Drop(Marker)));
  }

  lemma RenamesAreRecovery(d: Dir)
    requires Marker in d && IndexStaging in d && HeaderStaging in d
    ensures RecoverFully(d) == Some(ApplyOp(ApplyOp(d, MOVE_INDEX), MOVE_HEADER) - {Marker})
  {
    var renamed := ApplyOp(ApplyOp(d, MOVE_INDEX), MOVE_HEADER);
    assert renamed - {Marker} == RecoverFully(d).value;
  }

  /** The six steps from a committed swap to a settled pair. */
  lemma RecoverPath(s: Sys)
    requires s.pc == R0 && RecoverFully(Live(s.disk)).Some? && Marker in Live(s.disk)
    ensures var s1 := Next(s); var s2 := Next(s1); var s3 := Next(s2);
            var s4 := Next(s3); var s5 := Next(s4); var s6 := Next(s5);
            && s1.disk == s.disk
            && s2.disk == Issue(s1.disk, Move(IndexStaging, IndexFile))
            && s3.disk == Issue(s2.disk, Move(HeaderStaging, HeaderFile))
            && s4.disk == SyncDir(s3.disk)
            && s5.disk == Issue(s4.disk, Drop(Marker))
            && s6.disk == SyncDir(s5.disk)
            && s6.disk.pending == [] && RecoverFully(Live(s.disk)) == Some(Live(s6.disk))
            && (Inv(s) ==> Inv(s6))
  {
    RenamesAreRecovery(Live(s.disk));
    hide Live, Inv, Next, ApplyOp, RecoverFully, SyncDir, Issue;
    var s1 := Next(s); var s2 := Next(s1); var s3 := Next(s2); var s4 := Next(s3); var s5 := Next(s4);
    RenamePath(s);
    RemovePath(s3);
    if Inv(s) {
      NextKeepsInv(s); NextKeepsInv(s1); NextKeepsInv(s2); NextKeepsInv(s3); NextKeepsInv(s4); NextKeepsInv(s5);
    }
  }

  /** The eight steps of the commit, up to its commit point. */
  lemma CommitPath(s: Sys)
    requires Inv(s) && s.pc == C0
    ensures var s1 := Next(s); var s2 := Next(s1); var s3 := Next(s2); var s4 := Next(s3);
            var s5 := Next(s4); var s6 := Next(s5); var s7 := Next(s6); var s8 := Next(s7);
            && s1.disk == OpenTruncated(s.disk, IndexStaging) &&
              s2.disk == WriteAndSync(s1.disk, IndexStaging, IndexOf(s.gen))
            && s3.disk == OpenTruncated(s2.disk, HeaderStaging) &&
              s4.disk == WriteAndSync(s3.disk, HeaderStaging, HeaderOf(s.gen))
            && s5.disk == SyncDir(s4.disk)
            && s6.disk == OpenTruncated(s5.disk, Marker) && s7.disk == WriteAndSync(s6.disk, Marker, MarkerByte)
            && s8.disk == SyncDir(s7.disk)
            && s8.pc == R0 && Inv(s8) && s8.floor == s.gen && s8.disk.pending == [] && Marker in s8.disk.dir
  {
    hide Inv, OpenTruncated, WriteAndSync, SyncDir;
    var s1 := Next(s); var s2 := Next(s1); var s3 := Next(s2); var s4 := Next(s3);
    var s5 := Next(s4); var s6 := Next(s5); var s7 := Next(s6);
    NextKeepsInv(s); NextKeepsInv(s1); NextKeepsInv(s2); NextKeepsInv(s3);
    NextKeepsInv(s4); NextKeepsInv(s5); NextKeepsInv(s6); NextKeepsInv(s7);
    CommitPoint(s7);
  }

  lemma CommitEnds(s: Sys)
    requires Inv(s) && s.pc == C0
    ensures var d := Next(Next(Next(Next(Next(Next(Next(Next(s)))))))).disk.dir;
            RecoverFully(d).Some? && Matched(RecoverFully(d).value, s.gen)
  {
    hide Inv, OpenTruncated, WriteAndSync, SyncDir, RecoverFully, Matched;
    var s1 := Next(s); var s2 := Next(s1); var s3 := Next(s2); var s4 := Next(s3);
    var s5 := Next(s4); var s6 := Next(s5); var s7 := Next(s6);
    NextKeepsInv(s); NextKeepsInv(s1); NextKeepsInv(s2); NextKeepsInv(s3);
    NextKeepsInv(s4); NextKeepsInv(s5); NextKeepsInv(s6);
    CommitPoint(s7);
  }

  /** At the commit point the staged pair is complete and of the new generation. */
  lemma CommitPoint(s: Sys)
    requires Inv(s) && s.pc == C7
    ensures RecoverFully(Next(s).disk.dir).Some? && Next(s).disk.pending == [] && Marker in Next(s).disk.dir
    ensures Marker !in RecoverFully(Next(s).disk.dir).value && Matched(RecoverFully(Next(s).disk.dir).value, s.gen)
  {
    UnfoldLive(s.disk);
    hide Live;
  }
}
