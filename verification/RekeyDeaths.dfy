/**
  Process deaths during a rekey. Deaths alone never mix header and index, and neither do
  power losses alone. Together they are safe exactly as long as no process dies while the
  marker's creation or removal is unsynced.
 */
module RekeyDeaths {
  import opened Prelude
  import opened RekeySwap
  import opened RekeyCommit

  // ---- Deaths and power losses together ----

  /** However the run goes on, carefully, and whatever a power loss then keeps. */
  ghost predicate SafeForever(s: Sys) {
    forall events, keep | Careful(s, events) :: SafeAfter(s, events, keep)
  }

  predicate SafeAfter(s: Sys, events: seq<Event>, keep: set<nat>) {
    var s' := Run(s, events);
    Safe(Survive(s'.disk.dir, s'.disk.pending, keep), s'.floor)
  }

  lemma InvIsSafeForever(s: Sys)
    requires Inv(s)
    ensures SafeForever(s)
  {
    hide Inv, Run, Survive, Safe, Careful;
    forall events, keep | Careful(s, events) ensures SafeAfter(s, events, keep) {
      EveryCrashIsSafe(s, events, keep);
    }
  }

  const OPEN_ONCE: seq<Event> := [Begin(false), Tick, Tick]

  /** The next command, after a death with the marker's creation unsynced, renames the index. */
  lemma OpenAfterCreation(s: Sys)
    requires Inv(s) && (s.pc == C6 || s.pc == C7)
    ensures var dead := Step(s, Die);
            && Careful(dead, OPEN_ONCE)
            && Run(dead, OPEN_ONCE).disk == Disk(s.disk.dir, s.disk.pending + [MOVE_INDEX])
  {
    hide Inv, Next, Run, Careful, Live;
    var dead := Step(s, Die);
    TwoSteps(s);
    assert OPEN_ONCE == [] + [Begin(false)] + [Tick] + [Tick];
    RunNothing(dead);
    RunSnoc(dead, [], Begin(false));
    RunSnoc(dead, [] + [Begin(false)], Tick);
    RunSnoc(dead, [] + [Begin(false)] + [Tick], Tick);
    NoDeathIsCareful(dead, OPEN_ONCE);
  }

  lemma TwoSteps(s: Sys)
    requires Inv(s) && (s.pc == C6 || s.pc == C7)
    ensures var s1 := Step(Step(s, Die), Begin(false));
            Next(Next(s1)).disk == Disk(s.disk.dir, s.disk.pending + [MOVE_INDEX])
  {
    hide Live, Settled, PairGen;
    MarkerSeen(s.disk.dir, MarkerByte);
    MarkerSeen(s.disk.dir, Partial);
    assert Next(Step(Step(s, Die), Begin(false))).pc == R1;
  }

  lemma {:induction false} NoDeathIsCareful(s: Sys, events: seq<Event>)
    requires forall i | 0 <= i < |events| :: !events[i].Die?
    ensures Careful(s, events)
    decreases |events|
  {
    if events != [] { NoDeathIsCareful(s, events[..|events| - 1]); }
  }

  /** A power loss that keeps the rename and loses the marker leaves the new index beside the old header. */
  lemma MixedPair(s: Sys)
    requires Inv(s) && (s.pc == C6 || s.pc == C7)
    ensures var d := Survive(s.disk.dir, s.disk.pending + [MOVE_INDEX], {1});
            && Marker !in d && HeaderFile in d && IndexFile in d
            && d[HeaderFile] == HeaderOf(PairGen(s.disk.dir)) && d[IndexFile] == IndexOf(s.gen) &&
              PairGen(s.disk.dir) < s.gen
            && RecoverFully(d) == Some(d) && forall floor: nat :: !Safe(d, floor)
  {
    hide Survive, Safe, ApplyOp, PairGen, RecoverFully;
    UnfoldSurvive(s.disk.dir, s.disk.pending + [MOVE_INDEX], {1});
    assert Survive(s.disk.dir, s.disk.pending + [MOVE_INDEX], {1}) == ApplyOp(s.disk.dir, MOVE_INDEX);
    IndexRenamedAlone(s.disk.dir, s.gen);
  }

  lemma IndexRenamedAlone(d: Dir, gen: nat)
    requires Marker !in d && Matched(d, PairGen(d)) && PairGen(d) != gen && Staged(d, gen)
    ensures var d' := ApplyOp(d, MOVE_INDEX);
            && Marker !in d' && HeaderFile in d' && IndexFile in d'
            && d'[HeaderFile] == HeaderOf(PairGen(d)) && d'[IndexFile] == IndexOf(gen)
            && RecoverFully(d') == Some(d') && forall floor: nat :: !Safe(d', floor)
  {
  }

  const REKEY_AGAIN: seq<Event> := [Begin(true)] + Ticks(4)

  /** The next rekey, after a death with the marker's removal unsynced, stages on top of it. */
  lemma RekeyAfterRemoval(s: Sys)
    requires Inv(s) && s.pc == R5
    ensures var dead := Step(s, Die);
            && Careful(dead, REKEY_AGAIN)
            && Run(dead, REKEY_AGAIN).disk ==
                 Disk(s.disk.dir, [Drop(Marker), Put(IndexStaging, IndexOf(s.next)), Put(HeaderStaging, Partial)])
  {
    var dead := Step(s, Die);
    var s0 := Step(dead, Begin(true));
    RunSnoc(dead, [], Begin(true));
    assert [] + [Begin(true)] == [Begin(true)];
    RunTicks(dead, [Begin(true)], 4);
    NoDeathIsCareful(dead, REKEY_AGAIN);
    FourSteps(s0);
  }

  lemma FourSteps(s: Sys)
    requires s.pc == R0 && s.rekey && s.disk.pending == [Drop(Marker)] && IndexStaging !in s.disk.dir
    ensures After(s, 4).disk ==
      Disk(s.disk.dir, [Drop(Marker), Put(IndexStaging, IndexOf(s.next)), Put(HeaderStaging, Partial)])
  {
    hide Live, Without, After;
    UnfoldLive(s.disk);
    var s1, s2, s3 := Next(s), Next(Next(s)), Next(Next(Next(s)));
    assert s1.pc == C0 && s1.gen == s.next && s2.pc == C1;
    assert s2.disk.pending == [Drop(Marker)] + [Put(IndexStaging, Partial)];
    WithoutLast([Drop(Marker)], IndexStaging, Partial);
    WithoutNone([Drop(Marker)], IndexStaging);
    assert s3.pc == C2 && s3.disk.pending == [Drop(Marker), Put(IndexStaging, IndexOf(s.next))];
    AfterFour(s);
  }

  lemma AfterFour(s: Sys)
    ensures After(s, 4) == Next(Next(Next(Next(s))))
  {
    hide Next;
    assert After(s, 1) == Next(s) && After(s, 2) == Next(After(s, 1)) && After(s, 3) == Next(After(s, 2));
  }

  /** A power loss that keeps the staging files and loses the removal lets a cut header be recovered. */
  lemma PartialHeader(s: Sys)
    requires Inv(s) && s.pc == R5
    ensures var ops := [Drop(Marker), Put(IndexStaging, IndexOf(s.next)), Put(HeaderStaging, Partial)];
            var d := Survive(s.disk.dir, ops, {1, 2});
            && RecoverFully(d).Some? && HeaderFile in RecoverFully(d).value &&
              RecoverFully(d).value[HeaderFile] == Partial
            && forall floor: nat :: !Safe(d, floor)
  {
    var op1, op2, op3 := Drop(Marker), Put(IndexStaging, IndexOf(s.next)), Put(HeaderStaging, Partial);
    assert [op1, op2, op3][..2] == [op1, op2];
    UnfoldSurvive(s.disk.dir, [op1, op2], {1, 2});
    assert Survive(s.disk.dir, [op1, op2, op3], {1, 2}) == ApplyOp(Survive(s.disk.dir, [op1, op2], {1, 2}), op3);
    hide Survive;
  }

  /**
    A process may die and the volume stay safe, whatever follows, if and only if the
    marker's creation or removal is not among what it left unsynced.
   */
  lemma DeathIsSafeIff(s: Sys)
    requires Inv(s)
    ensures SafeForever(Step(s, Die)) <==> !MarkerUnsynced(s.pc)
  {
    hide Inv, Run, Survive, Safe, Careful, Live;
    var dead := Step(s, Die);
    if !MarkerUnsynced(s.pc) {
      DeathKeepsInv(s);
      InvIsSafeForever(dead);
    } else if s.pc == R5 {
      RekeyAfterRemoval(s);
      PartialHeader(s);
      assert !SafeAfter(dead, REKEY_AGAIN, {1, 2});
    } else {
      OpenAfterCreation(s);
      MixedPair(s);
      assert !SafeAfter(dead, OPEN_ONCE, {1});
    }
  }

  /** From a fresh volume: eight steps of a rekey, a death, an open, and a power loss give a mixed pair. */
  lemma FreshVolumeMixes()
    ensures var events := [Begin(true)] + Ticks(8) + [Die] + OPEN_ONCE;
            var s := Run(FRESH_VOLUME, events);
            var d := Survive(s.disk.dir, s.disk.pending, {1});
            && Marker !in d && HeaderFile in d && IndexFile in d
            && d[HeaderFile] == HeaderOf(0) && d[IndexFile].IndexOf? && d[IndexFile].gen > 0 &&
              RecoverFully(d) == Some(d)
  {
    hide Inv, Next, Live, Survive, RecoverFully, After, Run, Step, Ticks;
    var started := [Begin(true)] + Ticks(8);
    var s8 := Run(FRESH_VOLUME, started);
    FreshReachesCommit();
    RunSnoc(FRESH_VOLUME, started, Die);
    RunAppend(FRESH_VOLUME, started + [Die], OPEN_ONCE);
    OpenAfterCreation(s8);
    MixedPair(s8);
  }

  lemma FreshReachesCommit()
    ensures var s := Run(FRESH_VOLUME, [Begin(true)] + Ticks(8)); Inv(s) && s.pc == C7 && PairGen(s.disk.dir) == 0
  {
    hide Inv, Next, Live, After, Run, Ticks, PairGen;
    FreshIdle();
    var s0 := Step(FRESH_VOLUME, Begin(true));
    RunNothing(FRESH_VOLUME);
    RunSnoc(FRESH_VOLUME, [], Begin(true));
    assert [] + [Begin(true)] == [Begin(true)];
    RunTicks(FRESH_VOLUME, [Begin(true)], 8);
    BeginSettled(FRESH_VOLUME);
    CommitSteps(Next(s0), 7);
    AfterFirst(s0, 7);
    CommitKeepsPair(Next(s0), 7);
  }

  /** From a fresh volume: a rekey that dies before its last sync, another one begun, and a power loss cut the header.
      */
  lemma FreshVolumeCuts()
    ensures var events := [Begin(true)] + Ticks(14) + [Die] + REKEY_AGAIN;
            var s := Run(FRESH_VOLUME, events);
            var d := Survive(s.disk.dir, s.disk.pending, {1, 2});
            && RecoverFully(d).Some? && HeaderFile in RecoverFully(d).value &&
              RecoverFully(d).value[HeaderFile] == Partial
  {
    hide Inv, Next, Live, Survive, RecoverFully, After, Run, Step, Ticks, Safe;
    var started := [Begin(true)] + Ticks(14);
    var s14 := Run(FRESH_VOLUME, started);
    FreshReachesRemoval();
    RunSnoc(FRESH_VOLUME, started, Die);
    RunAppend(FRESH_VOLUME, started + [Die], REKEY_AGAIN);
    RekeyAfterRemoval(s14);
    PartialHeader(s14);
  }

  lemma FreshReachesRemoval()
    ensures var s := Run(FRESH_VOLUME, [Begin(true)] + Ticks(14)); Inv(s) && s.pc == R5
  {
    hide Inv, Next, Live, After, Run, Ticks, PairGen, Strands;
    FreshIdle();
    var s0 := Step(FRESH_VOLUME, Begin(true));
    RunNothing(FRESH_VOLUME);
    RunSnoc(FRESH_VOLUME, [], Begin(true));
    assert [] + [Begin(true)] == [Begin(true)];
    RunTicks(FRESH_VOLUME, [Begin(true)], 14);
    BeginSettled(FRESH_VOLUME);
    CommitSteps(Next(s0), 7);
    CommitReachesWindow(After(Next(s0), 7));
    ElevenSteps(s0);
    WindowReachesRemoval(After(s0, 11));
    ThreeMore(s0);
  }

  lemma WindowReachesRemoval(s: Sys)
    requires Inv(s) && s.pc == R2
    ensures var s' := Next(Next(Next(s))); Inv(s') && s'.pc == R5
  {
    hide Inv, Live;
    NextKeepsInv(s); NextKeepsInv(Next(s)); NextKeepsInv(Next(Next(s)));
  }

  lemma ThreeMore(s: Sys)
    ensures After(s, 14) == Next(Next(Next(After(s, 11))))
  {
    hide Next;
    assert After(s, 12) == Next(After(s, 11)) && After(s, 13) == Next(After(s, 12));
  }

  lemma RunNothing(s: Sys)
    ensures Run(s, []) == s
  {
  }

  lemma FreshIdle()
    ensures Inv(FRESH_VOLUME) && PairGen(FRESH_VOLUME.disk.dir) == 0
    ensures PairGen(Next(Step(FRESH_VOLUME, Begin(true))).disk.dir) == 0
  {
    FreshVolumeInv();
  }

  /** Until the commit point the old pair stands. */
  lemma {:induction false} CommitKeepsPair(s: Sys, n: nat)
    requires Inv(s) && s.pc == C0 && n <= 7
    ensures PairGen(After(s, n).disk.dir) == PairGen(s.disk.dir)
  {
    hide Inv, Next, PairGen;
    if n > 0 {
      CommitKeepsPair(s, n - 1);
      CommitSteps(s, n - 1);
      StepKeepsPair(After(s, n - 1));
    }
  }

  lemma StepKeepsPair(s: Sys)
    requires Inv(s) && (s.pc == C0 || s.pc == C1 || s.pc == C2 || s.pc == C3 || s.pc == C4 || s.pc == C5 || s.pc == C6)
    ensures PairGen(Next(s).disk.dir) == PairGen(s.disk.dir)
  {
    if s.pc == C4 {
      SurviveStaging(s.disk.dir, s.disk.pending, {});
      hide ApplyAll;
      assert !IsStaging(HeaderFile);
    }
  }

  // ---- Deaths alone ----

  /** Links and cuts of staging files, and a removed marker. */
  predicate Tame(ops: seq<DirOp>) {
    forall i | 0 <= i < |ops| :: (ops[i].Put? && IsStaging(ops[i].name)) || ops[i] == Drop(Marker)
  }

  /** A commit is under way on top of the pair a process sees. */
  predicate SeenStaging(s: Sys) {
    Settled(Live(s.disk), s.floor, s.next) && s.floor <= s.gen < s.next && Tame(s.disk.pending)
  }

  predicate Holds(d: Dir, name: Name, content: Content) { name in d && d[name] == content }

  /** Both renames are seen and the marker still is. */
  predicate SeenRenamed(d: Dir, floor: nat, next: nat) {
    Marker in d && IndexStaging !in d && HeaderStaging !in d && Settled(d - {Marker}, floor, next)
  }

  /** What processes see while no power is lost. */
  predicate LiveInv(s: Sys) {
    var d, p := Live(s.disk), s.disk.pending;
    && s.floor < s.next
    && match s.pc
       case Idle => (Settled(d, s.floor, s.next) && Tame(p)) || Committed(d, s.floor, s.next) || Stuck(d)
       case R0 => (Settled(d, s.floor, s.next) && Tame(p)) || Committed(d, s.floor, s.next) || Stuck(d)
       case C0 => SeenStaging(s)
       case C1 => SeenStaging(s)
       case C2 => SeenStaging(s) && Holds(d, IndexStaging, IndexOf(s.gen))
       case C3 => SeenStaging(s) && Holds(d, IndexStaging, IndexOf(s.gen))
       case C4 => SeenStaging(s) && Staged(d, s.gen)
       case C5 => SeenStaging(s) && Staged(d, s.gen) && p == []
       case C6 => p == [Put(Marker, Partial)] && Staged(d, s.gen) && s.floor <= s.gen < s.next && Marker !in s.disk.dir
       case C7 => p == [Put(Marker, MarkerByte)] && Staged(d, s.gen) && s.floor <= s.gen < s.next
       case R1 => Committed(d, s.floor, s.next)
       case R2 =>
         && Marker in d && IndexStaging !in d && Holds(d, HeaderStaging, HeaderOf(StagedGen(d)))
         && Holds(d, IndexFile, IndexOf(StagedGen(d))) && s.floor <= StagedGen(d) < s.next
       case R3 => SeenRenamed(d, s.floor, s.next)
       case R4 => p == [] && SeenRenamed(d, s.floor, s.next)
       case R5 => p == [Drop(Marker)] && Settled(d, s.floor, s.next)
  }

  lemma LiveStart(s: Sys)
    requires Inv(s) && s.disk.pending == [] && s.pc == Idle
    ensures LiveInv(s)
  {
  }

  lemma PutCommutes(d: Dir, op: DirOp, name: Name, content: Content)
    requires IsStaging(name) && (op.Put? || op == Drop(Marker))
    ensures op.Put? && op.name == name ==> ApplyOp(d, op)[name := content] == d[name := content]
    ensures !(op.Put? && op.name == name) ==> ApplyOp(d[name := content], op) == ApplyOp(d, op)[name := content]
  {
  }

  lemma ApplySnoc(dir: Dir, ops: seq<DirOp>, op: DirOp)
    ensures ApplyAll(dir, ops + [op]) == ApplyOp(ApplyAll(dir, ops), op)
  {
    LiveIssue(Disk(dir, ops), op);
  }

  lemma {:induction false} WithoutApplied(dir: Dir, ops: seq<DirOp>, name: Name, content: Content)
    requires Tame(ops) && IsStaging(name)
    ensures Tame(Without(ops, name))
    ensures ApplyAll(dir, Without(ops, name))[name := content] == ApplyAll(dir, ops)[name := content]
    ensures ApplyAll(dir[name := content], Without(ops, name)) == ApplyAll(dir, ops)[name := content]
    decreases |ops|
  {
    hide ApplyOp, ApplyAll;
    if ops == [] {
      NothingApplied(dir);
      NothingApplied(dir[name := content]);
    } else {
      var ops', last := ops[..|ops| - 1], ops[|ops| - 1];
      var earlier := Without(ops', name);
      assert ops == ops' + [last];
      WithoutApplied(dir, ops', name, content);
      ApplySnoc(dir, ops', last);
      ApplySnoc(dir, earlier, last);
      ApplySnoc(dir[name := content], earlier, last);
      PutCommutes(ApplyAll(dir, ops'), last, name, content);
      PutCommutes(ApplyAll(dir, earlier), last, name, content);
    }
  }

  lemma NothingApplied(dir: Dir)
    ensures ApplyAll(dir, []) == dir
  {
  }

  /** Writing and syncing a staging file shows its contents and nothing else new. */
  lemma WriteIsSeen(disk: Disk, name: Name, content: Content)
    requires Tame(disk.pending) && IsStaging(name)
    ensures Live(WriteAndSync(disk, name, content)) == Live(disk)[name := content]
    ensures Tame(WriteAndSync(disk, name, content).pending)
  {
    hide ApplyAll, Without;
    WithoutApplied(disk.dir, disk.pending, name, content);
    ApplySnoc(disk.dir, Without(disk.pending, name), Put(name, content));
  }

  lemma SeenCommitKeeps(s: Sys)
    requires LiveInv(s) && (s.pc == C0 || s.pc == C1 || s.pc == C2 || s.pc == C3)
    ensures LiveInv(Next(s))
  {
    hide Live, WriteAndSync, Settled, ApplyOp, PairGen, Issue;
    var name := if s.pc == C0 || s.pc == C1 then IndexStaging else HeaderStaging;
    var content := if name == IndexStaging then IndexOf(s.gen) else HeaderOf(s.gen);
    OpenIsSeen(s.disk, name);
    WriteIsSeen(s.disk, name, content);
    SettledButStaging(Live(s.disk), Live(s.disk)[name := Partial], s.floor, s.next);
    SettledButStaging(Live(s.disk), Live(s.disk)[name := content], s.floor, s.next);
  }

  lemma OpenIsSeen(disk: Disk, name: Name)
    requires Tame(disk.pending) && IsStaging(name)
    ensures Live(OpenTruncated(disk, name)) == Live(disk)[name := Partial] && Tame(OpenTruncated(disk, name).pending)
  {
    hide Live;
    LiveIssue(disk, Put(name, Partial));
  }

  lemma SeenSyncKeeps(s: Sys)
    requires LiveInv(s) && (s.pc == C4 || s.pc == C5)
    ensures LiveInv(Next(s))
  {
    LiveSynced(s.disk);
    LiveIssue(s.disk, Put(Marker, Partial));
    hide Live, Settled, PairGen;
    if s.pc == C5 { MarkerLinks(s); }
  }

  lemma MarkerLinks(s: Sys)
    requires LiveInv(s) && s.pc == C5
    ensures Marker !in s.disk.dir && Next(s).disk.pending == [Put(Marker, Partial)]
  {
  }

  lemma SeenMarkerKeeps(s: Sys)
    requires LiveInv(s) && (s.pc == C6 || s.pc == C7)
    ensures LiveInv(Next(s))
  {
    hide Live, Settled, WriteAndSync, PairGen;
    MarkerSeen(s.disk.dir, MarkerByte);
    if s.pc == C6 {
      MarkerWritten(s.disk.dir);
      MarkerSeen(s.disk.dir, Partial);
    } else {
      LiveSynced(s.disk);
    }
  }

  lemma SeenRecoverKeeps(s: Sys)
    requires LiveInv(s) && (s.pc == R0 || s.pc == R1 || s.pc == R2 || s.pc == R3 || s.pc == R4 || s.pc == R5)
    ensures LiveInv(Next(s))
  {
    LiveSynced(s.disk);
    LiveIssue(s.disk, MOVE_INDEX);
    LiveIssue(s.disk, MOVE_HEADER);
    LiveIssue(s.disk, Drop(Marker));
    hide Live;
  }

  lemma LiveStepKeepsInv(s: Sys, e: Event)
    requires LiveInv(s) && !e.PowerLoss?
    ensures LiveInv(Step(s, e)) && Step(s, e).floor >= s.floor
  {
    if e.Tick? {
      FloorGrows(s);
      hide LiveInv, Next, Live;
      match s.pc
      case Idle => IdleStays(s);
      case C0 | C1 | C2 | C3 => SeenCommitKeeps(s);
      case C4 | C5 => SeenSyncKeeps(s);
      case C6 | C7 => SeenMarkerKeeps(s);
      case R0 | R1 | R2 | R3 | R4 | R5 => SeenRecoverKeeps(s);
    } else if e.Die? {
      SeenDeathKeeps(s);
    } else {
      hide Live;
    }
  }

  lemma FloorGrows(s: Sys)
    requires LiveInv(s)
    ensures Next(s).floor >= s.floor
  {
    hide Live;
  }

  lemma IdleStays(s: Sys)
    requires s.pc == Idle
    ensures Next(s) == s
  {
  }

  lemma SeenDeathKeeps(s: Sys)
    requires LiveInv(s)
    ensures LiveInv(Step(s, Die))
  {
    MarkerSeen(s.disk.dir, MarkerByte);
    MarkerSeen(s.disk.dir, Partial);
    hide Live;
  }

  lemma {:induction false} LiveRunKeepsInv(s: Sys, events: seq<Event>)
    requires LiveInv(s) && forall i | 0 <= i < |events| :: !events[i].PowerLoss?
    ensures LiveInv(Run(s, events)) && Run(s, events).floor >= s.floor
    decreases |events|
  {
    hide LiveInv, Step;
    if events != [] {
      LiveRunKeepsInv(s, events[..|events| - 1]);
      LiveStepKeepsInv(Run(s, events[..|events| - 1]), events[|events| - 1]);
    }
  }

  lemma LiveIsSafe(s: Sys)
    requires LiveInv(s)
    ensures Safe(Live(s.disk), s.floor)
  {
    MarkerSeen(s.disk.dir, MarkerByte);
    MarkerSeen(s.disk.dir, Partial);
    hide Live;
  }

  /** With any number of deaths, anywhere, and no power loss, what the next command sees is safe. */
  lemma DeathsAloneAreSafe(s: Sys, events: seq<Event>)
    requires Inv(s) && s.pc == Idle && s.disk.pending == []
    requires forall i | 0 <= i < |events| :: !events[i].PowerLoss?
    ensures var s' := Run(s, events); Safe(Live(s'.disk), s'.floor) && s'.floor >= s.floor
  {
    LiveStart(s);
    LiveRunKeepsInv(s, events);
    hide Run, LiveInv, Live, Safe;
    LiveIsSafe(Run(s, events));
  }

  /**
    "If the process dies partway, the next command completes it": exactly unless it dies
    between its first rename and its removal of the marker.
   */
  lemma DeathIsCompletedIff(s: Sys)
    requires LiveInv(s) && s.pc != Idle && s.pc != R0
    ensures RecoverFully(Live(Step(s, Die).disk)).None? <==> s.pc == R2 || s.pc == R3 || s.pc == R4
    ensures s.pc == C6 || s.pc == C7 ==> Matched(RecoverFully(Live(Step(s, Die).disk)).value, s.gen)
  {
    MarkerSeen(s.disk.dir, MarkerByte);
    MarkerSeen(s.disk.dir, Partial);
    hide Live;
  }
}
