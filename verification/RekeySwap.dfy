/**
  The crash-safe swap of header and index. A disk is a durable directory plus the
  operations issued since the last directory sync; a power loss keeps any subset of those,
  a process death keeps them all, unsynced, for the next process to build on. Every file
  has one name, so contents are kept with the name. `HeaderOf(g)` is a header of key
  generation `g` and `IndexOf(g)` an index sealed under that key.
 */
module RekeySwap {
  import opened Prelude

  datatype Name = HeaderFile | IndexFile | HeaderStaging | IndexStaging | Marker

  datatype Content = Partial | HeaderOf(gen: nat) | IndexOf(gen: nat) | MarkerByte

  type Dir = map<Name, Content>

  datatype DirOp = Put(name: Name, content: Content) | Move(from: Name, to: Name) | Drop(name: Name)

  datatype Disk = Disk(dir: Dir, pending: seq<DirOp>)

  function ApplyOp(dir: Dir, op: DirOp): Dir {
    match op
    case Put(name, content) => dir[name := content]
    case Move(from, to) => if from in dir then (dir - {from})[to := dir[from]] else dir
    case Drop(name) => dir - {name}
  }

  /** What is left after a crash that kept exactly the operations numbered in `keep`. */
  function Survive(dir: Dir, ops: seq<DirOp>, keep: set<nat>): Dir {
    if ops == [] then dir
    else
      var last := |ops| - 1;
      var earlier := Survive(dir, ops[..last], keep);
      if last in keep then ApplyOp(earlier, ops[last]) else earlier
  }

  function ApplyAll(dir: Dir, ops: seq<DirOp>): Dir {
    if ops == [] then dir else ApplyOp(ApplyAll(dir, ops[..|ops| - 1]), ops[|ops| - 1])
  }

  /** What a process sees: everything issued so far. */
  function Live(disk: Disk): Dir {
    ApplyAll(disk.dir, disk.pending)
  }

  // ---- The steps, in program order ----

  datatype Pc =
    | Idle
    | C0 | C1 | C2 | C3 | C4 | C5 | C6 | C7
    | R0 | R1 | R2 | R3 | R4 | R5

  /**
    `gen` is the generation being committed, `next` the next fresh one, `floor` the newest
    one whose marker is known durable, and `rekey` whether a commit follows the recovery.
   */
  datatype Sys = Sys(disk: Disk, pc: Pc, rekey: bool, gen: nat, next: nat, floor: nat)

  /** Open for writing: a new file is linked or an existing one cut, neither of them synced. */
  function OpenTruncated(disk: Disk, name: Name): Disk {
    Issue(disk, Put(name, Partial))
  }

  /** The operations other than links and cuts of this file. */
  function Without(ops: seq<DirOp>, name: Name): seq<DirOp> {
    if ops == [] then []
    else
      var last := ops[|ops| - 1];
      var earlier := Without(ops[..|ops| - 1], name);
      if last.Put? && last.name == name then earlier else earlier + [last]
  }

  /** All bytes written and the file synced: only its link may still be lost. */
  function WriteAndSync(disk: Disk, name: Name, content: Content): Disk {
    var others := Without(disk.pending, name);
    if name in disk.dir then Disk(disk.dir[name := content], others)
    else disk.(pending := others + [Put(name, content)])
  }

  function Issue(disk: Disk, op: DirOp): Disk {
    disk.(pending := disk.pending + [op])
  }

  function SyncDir(disk: Disk): Disk {
    Disk(Live(disk), [])
  }

  function Recovered(s: Sys): Sys {
    if s.rekey then s.(pc := C0, gen := s.next, next := s.next + 1, rekey := false) else s.(pc := Idle)
  }

  /** One step of the running process. */
  function Next(s: Sys): Sys {
    match s.pc
    case Idle => s
    case C0 => s.(disk := OpenTruncated(s.disk, IndexStaging), pc := C1)
    case C1 => s.(disk := WriteAndSync(s.disk, IndexStaging, IndexOf(s.gen)), pc := C2)
    case C2 => s.(disk := OpenTruncated(s.disk, HeaderStaging), pc := C3)
    case C3 => s.(disk := WriteAndSync(s.disk, HeaderStaging, HeaderOf(s.gen)), pc := C4)
    case C4 => s.(disk := SyncDir(s.disk), pc := C5)
    case C5 => s.(disk := OpenTruncated(s.disk, Marker), pc := C6)
    case C6 => s.(disk := WriteAndSync(s.disk, Marker, MarkerByte), pc := C7)
    case C7 => s.(disk := SyncDir(s.disk), pc := R0, floor := s.gen)
    case R0 =>
      if Marker !in Live(s.disk) then Recovered(s)
      else if IndexStaging !in Live(s.disk) || HeaderStaging !in Live(s.disk) then s.(pc := Idle)
      else s.(pc := R1)
    case R1 => s.(disk := Issue(s.disk, Move(IndexStaging, IndexFile)), pc := R2)
    case R2 => s.(disk := Issue(s.disk, Move(HeaderStaging, HeaderFile)), pc := R3)
    case R3 => s.(disk := SyncDir(s.disk), pc := R4)
    case R4 => s.(disk := Issue(s.disk, Drop(Marker)), pc := R5)
    case R5 => Recovered(s.(disk := SyncDir(s.disk)))
  }

  /** A crash; if the new marker was among the survivors, the new generation is committed. */
  function Crash(s: Sys, keep: set<nat>): Sys {
    var dir := Survive(s.disk.dir, s.disk.pending, keep);
    s.(disk := Disk(dir, []), pc := Idle, rekey := false,
       floor := if Marker in dir && (s.pc == C6 || s.pc == C7) then s.gen else s.floor)
  }

  datatype Event = Begin(rekey: bool) | Tick | Die | PowerLoss(keep: set<nat>)

  function Step(s: Sys, e: Event): Sys {
    match e
    case Begin(rekey) => if s.pc == Idle then s.(pc := R0, rekey := rekey) else s
    case Tick => Next(s)
    case Die => s.(pc := Idle, rekey := false)
    case PowerLoss(keep) => Crash(s, keep)
  }

  function Run(s: Sys, events: seq<Event>): Sys {
    if events == [] then s else Step(Run(s, events[..|events| - 1]), events[|events| - 1])
  }

  // ---- What must hold of a directory ----

  /** Header and index are of one generation; only generation 0 may lack an index. */
  predicate Matched(d: Dir, g: nat) {
    && HeaderFile in d && d[HeaderFile] == HeaderOf(g)
    && (if IndexFile in d then d[IndexFile] == IndexOf(g) else g == 0)
  }

  predicate Staged(d: Dir, g: nat) {
    IndexStaging in d && HeaderStaging in d && d[IndexStaging] == IndexOf(g) && d[HeaderStaging] == HeaderOf(g)
  }

  function PairGen(d: Dir): nat {
    if HeaderFile in d && d[HeaderFile].HeaderOf? then d[HeaderFile].gen else 0
  }

  function StagedGen(d: Dir): nat {
    if HeaderStaging in d && d[HeaderStaging].HeaderOf? then d[HeaderStaging].gen else 0
  }

  /** No swap under way: a matched pair. */
  predicate Settled(d: Dir, floor: nat, next: nat) {
    Marker !in d && Matched(d, PairGen(d)) && floor <= PairGen(d) < next
  }

  /** A swap past its commit point, with everything needed to finish it. */
  predicate Committed(d: Dir, floor: nat, next: nat) {
    Marker in d && Staged(d, StagedGen(d)) && floor <= StagedGen(d) < next
  }

  /** A swap past its commit point that `recover` refuses to finish. */
  predicate Stuck(d: Dir) {
    Marker in d && (IndexStaging !in d || HeaderStaging !in d)
  }

  predicate Consistent(d: Dir, floor: nat, next: nat) {
    Settled(d, floor, next) || Committed(d, floor, next) || Stuck(d)
  }

  // ---- The invariant of every run ----

  const MOVE_INDEX: DirOp := Move(IndexStaging, IndexFile)
  const MOVE_HEADER: DirOp := Move(HeaderStaging, HeaderFile)

  predicate IsStaging(name: Name) { name == IndexStaging || name == HeaderStaging }

  predicate StagingOnly(ops: seq<DirOp>) {
    forall i | 0 <= i < |ops| :: ops[i].Put? && IsStaging(ops[i].name)
  }

  /** Whatever survives of the file holds `content`, and after a directory sync it is there. */
  predicate Durable(disk: Disk, name: Name, content: Content) {
    && (forall i | 0 <= i < |disk.pending| && disk.pending[i].Put? && disk.pending[i].name == name ::
          disk.pending[i].content == content)
    && (if name in disk.dir then disk.dir[name] == content else Put(name, content) in disk.pending)
  }

  /** No process runs: a settled pair with unsynced staging files, or a swap, perhaps half renamed. */
  predicate AtRest(disk: Disk, floor: nat, next: nat) {
    var d, p := disk.dir, disk.pending;
    || (Settled(d, floor, next) && StagingOnly(p))
    || (Committed(d, floor, next) && (p == [] || p == [MOVE_INDEX] || p == [MOVE_INDEX, MOVE_HEADER]))
    || (Stuck(d) && p == [])
  }

  /** A commit of a fresh generation is under way and the old pair still stands. */
  predicate Staging(s: Sys) {
    Settled(s.disk.dir, s.floor, s.next) && s.floor <= s.gen < s.next && PairGen(s.disk.dir) < s.gen
  }

  /** The renames are durable and the marker is not yet durably gone. */
  predicate Renamed(d: Dir, floor: nat, next: nat) {
    Marker in d && IndexStaging !in d && HeaderStaging !in d && Settled(d - {Marker}, floor, next)
  }

  predicate Inv(s: Sys) {
    var d, p := s.disk.dir, s.disk.pending;
    && s.floor < s.next
    && match s.pc
       case Idle => AtRest(s.disk, s.floor, s.next)
       case R0 => AtRest(s.disk, s.floor, s.next)
       case C0 => Staging(s) && StagingOnly(p)
       case C1 => Staging(s) && StagingOnly(p)
       case C2 => Staging(s) && StagingOnly(p) && Durable(s.disk, IndexStaging, IndexOf(s.gen))
       case C3 => Staging(s) && StagingOnly(p) && Durable(s.disk, IndexStaging, IndexOf(s.gen))
       case C4 =>
         && Staging(s) && StagingOnly(p) && Durable(s.disk, IndexStaging, IndexOf(s.gen))
         && Durable(s.disk, HeaderStaging, HeaderOf(s.gen))
       case C5 => Staging(s) && p == [] && Staged(d, s.gen)
       case C6 => Staging(s) && p == [Put(Marker, Partial)] && Staged(d, s.gen)
       case C7 => Staging(s) && p == [Put(Marker, MarkerByte)] && Staged(d, s.gen)
       case R1 => p == [] && Committed(d, s.floor, s.next)
       case R2 => p == [MOVE_INDEX] && Committed(d, s.floor, s.next)
       case R3 => p == [MOVE_INDEX, MOVE_HEADER] && Committed(d, s.floor, s.next)
       case R4 => p == [] && Renamed(d, s.floor, s.next)
       case R5 => p == [Drop(Marker)] && Renamed(d, s.floor, s.next)
  }

  // ---- Unsynced staging files change nothing else ----

  predicate SameButStaging(d: Dir, d': Dir) {
    forall n: Name | !IsStaging(n) :: (n in d <==> n in d') && (n in d ==> d'[n] == d[n])
  }

  lemma {:induction false} SurviveStaging(dir: Dir, ops: seq<DirOp>, keep: set<nat>)
    requires StagingOnly(ops)
    ensures SameButStaging(dir, Survive(dir, ops, keep)) && SameButStaging(dir, ApplyAll(dir, ops))
    decreases |ops|
  {
    if ops != [] { SurviveStaging(dir, ops[..|ops| - 1], keep); }
  }

  lemma SettledButStaging(d: Dir, d': Dir, floor: nat, next: nat)
    requires Settled(d, floor, next) && SameButStaging(d, d')
    ensures Settled(d', floor, next) && PairGen(d') == PairGen(d)
  {
    assert forall n: Name | n == HeaderFile || n == IndexFile || n == Marker :: !IsStaging(n);
  }

  lemma {:induction false} DurableIsLive(dir: Dir, ops: seq<DirOp>, name: Name, content: Content)
    requires StagingOnly(ops) && (name in dir ==> dir[name] == content)
    requires forall i | 0 <= i < |ops| && ops[i].name == name :: ops[i].content == content
    ensures var d := ApplyAll(dir, ops);
            (name in d ==> d[name] == content) && (name in dir || Put(name, content) in ops ==> name in d)
    decreases |ops|
  {
    if ops != [] { DurableIsLive(dir, ops[..|ops| - 1], name, content); }
  }

  lemma {:induction false} WithoutKeeps(ops: seq<DirOp>, name: Name)
    ensures forall op :: op in Without(ops, name) <==> op in ops && !(op.Put? && op.name == name)
    decreases |ops|
  {
    if ops != [] {
      WithoutKeeps(ops[..|ops| - 1], name);
      assert ops == ops[..|ops| - 1] + [ops[|ops| - 1]];
    }
  }

  /** Writing and syncing a staging file makes it durable and leaves the other one as it was. */
  lemma WriteIsDurable(disk: Disk, name: Name, content: Content)
    requires StagingOnly(disk.pending) && IsStaging(name)
    ensures var disk' := WriteAndSync(disk, name, content);
            && StagingOnly(disk'.pending) && Durable(disk', name, content) && SameButStaging(disk.dir, disk'.dir)
            && forall other, c | other != name && Durable(disk, other, c) :: Durable(disk', other, c)
  {
    var others, disk' := Without(disk.pending, name), WriteAndSync(disk, name, content);
    WithoutKeeps(disk.pending, name);
    hide Without;
    assert forall op | op in others :: op in disk.pending;
    assert forall i | 0 <= i < |others| :: others[i] in others;
    forall i | 0 <= i < |disk'.pending| ensures disk'.pending[i] in others || disk'.pending[i] == Put(name, content) {
      if i < |others| { assert disk'.pending[i] == others[i]; }
    }
    forall other, c | other != name && Durable(disk, other, c) ensures Durable(disk', other, c) {
      OtherStaysDurable(disk, disk', name, content, other, c);
    }
  }

  lemma OtherStaysDurable(disk: Disk, disk': Disk, name: Name, content: Content, other: Name, c: Content)
    requires disk' == WriteAndSync(disk, name, content) && other != name && Durable(disk, other, c)
    ensures Durable(disk', other, c)
  {
    WithoutKeeps(disk.pending, name);
    var others := Without(disk.pending, name);
    hide Without;
    forall i | 0 <= i < |disk'.pending| && disk'.pending[i].Put? && disk'.pending[i].name == other
      ensures disk'.pending[i].content == c
    {
      assert disk'.pending[i] in others;
      assert disk'.pending[i] in disk.pending;
    }
    if other !in disk.dir { assert Put(other, c) in others; }
  }

  /** Opening a staging file cuts it and nothing else. */
  lemma OpenStaging(disk: Disk, name: Name)
    requires StagingOnly(disk.pending) && IsStaging(name)
    ensures StagingOnly(OpenTruncated(disk, name).pending)
    ensures forall other, c | other != name && Durable(disk, other, c) :: Durable(OpenTruncated(disk, name), other, c)
  {
  }

  /** After the directory sync both staging files are complete. */
  lemma SyncStages(s: Sys)
    requires Inv(s) && s.pc == C4
    ensures Inv(Next(s))
  {
    var d, p := s.disk.dir, s.disk.pending;
    SurviveStaging(d, p, {});
    SettledButStaging(d, Live(s.disk), s.floor, s.next);
    DurableIsLive(d, p, IndexStaging, IndexOf(s.gen));
    DurableIsLive(d, p, HeaderStaging, HeaderOf(s.gen));
    hide ApplyAll, Settled, PairGen;
  }

  lemma SurviveOne(dir: Dir, op: DirOp, keep: set<nat>)
    ensures Survive(dir, [op], keep) == if 0 in keep then ApplyOp(dir, op) else dir
  {
    assert [op][..0] == [];
  }

  lemma SurviveTwo(dir: Dir, op1: DirOp, op2: DirOp, keep: set<nat>)
    ensures Survive(dir, [op1, op2], keep) ==
      var d := if 0 in keep then ApplyOp(dir, op1) else dir;
      if 1 in keep then ApplyOp(d, op2) else d
  {
    assert [op1, op2][..1] == [op1];
    SurviveOne(dir, op1, keep);
  }

  lemma UnfoldSurvive(dir: Dir, ops: seq<DirOp>, keep: set<nat>)
    requires |ops| <= 2
    ensures |ops| == 0 ==> Survive(dir, ops, keep) == dir
    ensures |ops| == 1 ==> Survive(dir, ops, keep) == if 0 in keep then ApplyOp(dir, ops[0]) else dir
    ensures |ops| == 2 ==>
      var d := if 0 in keep then ApplyOp(dir, ops[0]) else dir;
      Survive(dir, ops, keep) == if 1 in keep then ApplyOp(d, ops[1]) else d
  {
    if |ops| == 1 {
      assert ops == [ops[0]];
      SurviveOne(dir, ops[0], keep);
    } else if |ops| == 2 {
      assert ops == [ops[0], ops[1]];
      SurviveTwo(dir, ops[0], ops[1], keep);
    }
  }

  /** The unsynced operations are a few known ones, or links of staging files. */
  lemma InvPendingShort(s: Sys)
    requires Inv(s)
    ensures |s.disk.pending| <= 2 || (Settled(s.disk.dir, s.floor, s.next) && StagingOnly(s.disk.pending))
  {
  }

  predicate Unsynced(s: Sys) {
    StagingOnly(s.disk.pending) && Settled(s.disk.dir, s.floor, s.next)
  }

  lemma CrashWhileStaging(s: Sys, keep: set<nat>)
    requires Inv(s) && Unsynced(s)
    ensures Inv(Crash(s, keep))
  {
    SurviveStaging(s.disk.dir, s.disk.pending, keep);
    SettledButStaging(s.disk.dir, Survive(s.disk.dir, s.disk.pending, keep), s.floor, s.next);
    hide Survive, Settled;
    assert StagingOnly([]);
    CrashFloor(s, keep);
  }

  lemma CrashFloor(s: Sys, keep: set<nat>)
    requires Inv(s) && Marker !in Survive(s.disk.dir, s.disk.pending, keep)
    ensures Crash(s, keep).floor == s.floor
  {
  }

  /** Whatever a power loss keeps, the surviving directory is consistent. */
  lemma CrashConsistent(s: Sys, keep: set<nat>)
    requires Inv(s)
    ensures Inv(Crash(s, keep))
  {
    if Unsynced(s) {
      CrashWhileStaging(s, keep);
    } else {
      CrashLater(s, keep);
    }
  }

  lemma CrashLater(s: Sys, keep: set<nat>)
    requires Inv(s) && !Unsynced(s)
    ensures Inv(Crash(s, keep))
  {
    InvPendingShort(s);
    UnfoldSurvive(s.disk.dir, s.disk.pending, keep);
    hide Survive;
  }

  lemma UnfoldLive(disk: Disk)
    requires |disk.pending| <= 2
    ensures |disk.pending| == 0 ==> Live(disk) == disk.dir
    ensures |disk.pending| == 1 ==> Live(disk) == ApplyOp(disk.dir, disk.pending[0])
    ensures |disk.pending| == 2 ==> Live(disk) == ApplyOp(ApplyOp(disk.dir, disk.pending[0]), disk.pending[1])
  {
    var ops := disk.pending;
    if |ops| >= 1 {
      assert ops[..1][..0] == [];
      assert ApplyAll(disk.dir, ops[..1]) == ApplyOp(ApplyAll(disk.dir, []), ops[0]);
    }
    if |ops| == 1 { assert ops[..1] == ops; }
  }

  lemma CommitStepKeepsInv(s: Sys)
    requires Inv(s) && (s.pc == C0 || s.pc == C1 || s.pc == C2 || s.pc == C3)
    ensures Inv(Next(s))
  {
    hide Live, Durable, OpenTruncated, WriteAndSync, Settled, PairGen;
    var name := if s.pc == C0 || s.pc == C1 then IndexStaging else HeaderStaging;
    var content := if name == IndexStaging then IndexOf(s.gen) else HeaderOf(s.gen);
    OpenDir(s.disk, name);
    OpenStaging(s.disk, name);
    WriteIsDurable(s.disk, name, content);
    SettledButStaging(s.disk.dir, WriteAndSync(s.disk, name, content).dir, s.floor, s.next);
  }

  lemma OpenDir(disk: Disk, name: Name)
    ensures OpenTruncated(disk, name).dir == disk.dir
  {
  }

  lemma WithoutLast(ops: seq<DirOp>, name: Name, content: Content)
    ensures Without(ops + [Put(name, content)], name) == Without(ops, name)
  {
    var all := ops + [Put(name, content)];
    assert all[..|all| - 1] == ops;
  }

  lemma WithoutNone(ops: seq<DirOp>, name: Name)
    requires |ops| <= 1 && forall i | 0 <= i < |ops| :: !ops[i].Put?
    ensures Without(ops, name) == ops
  {
    if |ops| == 1 { assert ops[..0] == []; }
  }

  lemma MarkerWritten(dir: Dir)
    requires Marker !in dir
    ensures WriteAndSync(Disk(dir, [Put(Marker, Partial)]), Marker, MarkerByte) == Disk(dir, [Put(Marker, MarkerByte)])
  {
    hide Without;
    assert [Put(Marker, Partial)] == [] + [Put(Marker, Partial)];
    WithoutLast([], Marker, Partial);
    WithoutNone([], Marker);
  }

  lemma MarkerSeen(dir: Dir, content: Content)
    ensures Live(Disk(dir, [Put(Marker, content)])) == dir[Marker := content]
  {
    UnfoldLive(Disk(dir, [Put(Marker, content)]));
    hide Live;
  }

  lemma CommitSyncKeepsInv(s: Sys)
    requires Inv(s) && (s.pc == C4 || s.pc == C5 || s.pc == C6 || s.pc == C7)
    ensures Inv(Next(s))
  {
    hide Live, WriteAndSync, Settled, PairGen;
    match s.pc
    case C4 => SyncStages(s);
    case C5 =>
    case C6 => MarkerAbsent(s); MarkerWritten(s.disk.dir);
    case C7 => MarkerSeen(s.disk.dir, MarkerByte); MarkedIsCommitted(s);
  }

  lemma MarkerAbsent(s: Sys)
    requires Staging(s)
    ensures Marker !in s.disk.dir
  {
  }

  lemma MarkedIsCommitted(s: Sys)
    requires Staged(s.disk.dir, s.gen) && s.floor <= s.gen < s.next
    ensures Committed(s.disk.dir[Marker := MarkerByte], s.gen, s.next)
  {
  }

  /** At rest, a process sees what the durable directory and the renames say. */
  lemma RestIsSeen(s: Sys)
    requires Inv(s) && s.pc == R0
    ensures Inv(Next(s))
  {
    if Unsynced(s) {
      SurviveStaging(s.disk.dir, s.disk.pending, {});
      hide ApplyAll, Settled;
      MarkerIsSeen(s);
    } else {
      UnfoldLive(s.disk);
      hide Live;
    }
  }

  lemma MarkerIsSeen(s: Sys)
    requires Inv(s) && s.pc == R0 && Unsynced(s)
    ensures Marker !in Live(s.disk)
    ensures Inv(Recovered(s))
  {
    SurviveStaging(s.disk.dir, s.disk.pending, {});
    hide ApplyAll;
    assert !IsStaging(Marker);
  }

  lemma RecoverStepKeepsInv(s: Sys)
    requires Inv(s) && (s.pc == R1 || s.pc == R2 || s.pc == R3 || s.pc == R4 || s.pc == R5)
    ensures Inv(Next(s))
  {
    UnfoldLive(s.disk);
    hide Live;
  }

  lemma NextKeepsInv(s: Sys)
    requires Inv(s)
    ensures Inv(Next(s))
  {
    hide Inv, Next;
    match s.pc
    case Idle => IdleKeepsInv(s);
    case C0 | C1 | C2 | C3 => CommitStepKeepsInv(s);
    case C4 | C5 | C6 | C7 => CommitSyncKeepsInv(s);
    case R0 => RestIsSeen(s);
    case R1 | R2 | R3 | R4 | R5 => RecoverStepKeepsInv(s);
  }

  lemma IdleKeepsInv(s: Sys)
    requires Inv(s) && s.pc == Idle
    ensures Inv(Next(s))
  {
  }

  /** The marker's creation or removal has been issued and not synced. */
  predicate MarkerUnsynced(pc: Pc) { pc == C6 || pc == C7 || pc == R5 }

  lemma DeathKeepsInv(s: Sys)
    requires Inv(s) && !MarkerUnsynced(s.pc)
    ensures Inv(Step(s, Die))
  {
    hide Settled;
  }

  lemma StepKeepsInv(s: Sys, e: Event)
    requires Inv(s) && (e.Die? ==> !MarkerUnsynced(s.pc))
    ensures Inv(Step(s, e)) && Step(s, e).floor >= s.floor
  {
    match e
    case Begin(_) =>
    case Tick => NextKeepsInv(s);
    case Die => DeathKeepsInv(s);
    case PowerLoss(keep) => CrashConsistent(s, keep);
  }

  /** A volume whose header and index agree, with no swap under way. */
  const FRESH_VOLUME: Sys := Sys(Disk(map[HeaderFile := HeaderOf(0), IndexFile := IndexOf(0)], []), Idle, false, 0, 1,
    0)

  lemma FreshVolumeInv()
    ensures Inv(FRESH_VOLUME)
  {
  }

  /** No process of the run dies while the marker's creation or removal is unsynced. */
  predicate Careful(s: Sys, events: seq<Event>) {
    events == [] ||
    (var earlier := events[..|events| - 1];
     Careful(s, earlier) && (events[|events| - 1].Die? ==> !MarkerUnsynced(Run(s, earlier).pc)))
  }

  lemma {:induction false} RunKeepsInv(s: Sys, events: seq<Event>)
    requires Inv(s) && Careful(s, events)
    ensures Inv(Run(s, events)) && Run(s, events).floor >= s.floor
    decreases |events|
  {
    hide Inv, Step, MarkerUnsynced;
    if events != [] {
      RunKeepsInv(s, events[..|events| - 1]);
      StepKeepsInv(Run(s, events[..|events| - 1]), events[|events| - 1]);
    }
  }

  /** Running `recover` to its end on a directory: the directory it leaves, or a refusal. */
  function RecoverFully(d: Dir): Option<Dir> {
    if Marker !in d then Some(d)
    else if IndexStaging !in d || HeaderStaging !in d then None
    else Some(d[IndexFile := d[IndexStaging]][HeaderFile := d[HeaderStaging]] - {IndexStaging, HeaderStaging, Marker})
  }

  /** The next command refuses, or sees header and index of one generation, none too old. */
  predicate Safe(d: Dir, floor: nat) {
    RecoverFully(d).Some? ==>
      Matched(RecoverFully(d).value, PairGen(RecoverFully(d).value)) && PairGen(RecoverFully(d).value) >= floor
  }

  /**
    Over every careful run with any number of deaths and power losses, and whatever the next
    power loss keeps: the next command refuses exactly when the directory is stuck; otherwise
    it sees a header and an index of one generation, at least as new as any whose marker was
    ever durable.
   */
  lemma EveryCrashIsSafe(s: Sys, events: seq<Event>, keep: set<nat>)
    requires Inv(s) && Careful(s, events)
    ensures var s' := Run(s, events);
            var d := Survive(s'.disk.dir, s'.disk.pending, keep);
            Safe(d, s'.floor) && s'.floor >= s.floor && (RecoverFully(d).None? <==> Stuck(d))
  {
    RunKeepsInv(s, events);
    hide Run, Survive, Careful;
    var s' := Run(s, events);
    CrashConsistent(s', keep);
    RestIsSafe(Crash(s', keep));
  }

  lemma RestIsSafe(s: Sys)
    requires Inv(s) && s.pc == Idle && s.disk.pending == []
    ensures Safe(s.disk.dir, s.floor)
  {
  }

  /** An open that gets past `recover` sees a matched pair too. */
  lemma OpenedPairIsMatched(s: Sys, events: seq<Event>)
    requires Inv(s) && Careful(s, events)
    ensures var s' := Run(s, events);
            var d := Live(s'.disk);
            (s'.pc == Idle || s'.pc == C0) && Marker !in d ==> Matched(d, PairGen(d)) && PairGen(d) >= s'.floor
  {
    RunKeepsInv(s, events);
    hide Run, Careful;
    var s' := Run(s, events);
    if s'.pc == Idle || s'.pc == C0 {
      if Unsynced(s') {
        SurviveStaging(s'.disk.dir, s'.disk.pending, {});
        hide ApplyAll;
        SettledButStaging(s'.disk.dir, Live(s'.disk), s'.floor, s'.next);
      } else {
        UnfoldLive(s'.disk);
        hide ApplyAll;
      }
    }
  }

  /** Which surviving operations strand the volume: a rename, or not the removal of the marker. */
  predicate Strands(disk: Disk, keep: set<nat>) {
    var p := disk.pending;
    if Stuck(disk.dir) then forall k | 0 <= k < |p| && k in keep :: !p[k].Drop?
    else exists k :: 0 <= k < |p| && k in keep && p[k].Move?
  }

  /**
    A power loss leaves a volume that no command opens again exactly when it keeps an
    unsynced rename, or strikes after the synced renames and loses the marker removal, or
    the volume was stuck before.
   */
  lemma StuckExactlyWhen(s: Sys, keep: set<nat>)
    requires Inv(s)
    ensures Stuck(Survive(s.disk.dir, s.disk.pending, keep)) <==> Strands(s.disk, keep)
  {
    hide Survive;
    if Unsynced(s) {
      SurviveStaging(s.disk.dir, s.disk.pending, keep);
      assert !IsStaging(Marker);
    } else {
      InvPendingShort(s);
      UnfoldSurvive(s.disk.dir, s.disk.pending, keep);
    }
  }

  /** Between the first rename of recovery and the synced marker removal. */
  ghost predicate InWindow(disk: Disk) {
    Stuck(disk.dir) || exists k :: 0 <= k < |disk.pending| && disk.pending[k].Move?
  }

  ghost predicate CanGetStuck(s: Sys) {
    exists keep :: Stuck(Survive(s.disk.dir, s.disk.pending, keep))
  }

  /**
    The promise that an interrupted rekey is completed by the next command fails exactly
    in one window: some power loss can strand the volume if and only if a rename has been
    issued and the marker removal is not synced. While a process runs, that is from its
    first rename to its last sync.
   */
  lemma StuckExactlyInWindow(s: Sys)
    requires Inv(s)
    ensures CanGetStuck(s) <==> InWindow(s.disk)
    ensures s.pc != Idle && s.pc != R0 ==> (InWindow(s.disk) <==> s.pc == R2 || s.pc == R3 || s.pc == R4 || s.pc == R5)
  {
    if s.pc != Idle && s.pc != R0 { WindowSteps(s); }
    hide Survive, Inv, Stuck;
    forall keep ensures Stuck(Survive(s.disk.dir, s.disk.pending, keep)) <==> Strands(s.disk, keep) {
      StuckExactlyWhen(s, keep);
    }
    if Stuck(s.disk.dir) {
      assert Strands(s.disk, {});
    } else if k: nat :| k < |s.disk.pending| && s.disk.pending[k].Move? {
      assert Strands(s.disk, {k});
    }
  }

  lemma WindowSteps(s: Sys)
    requires Inv(s) && s.pc != Idle && s.pc != R0
    ensures InWindow(s.disk) <==> s.pc == R2 || s.pc == R3 || s.pc == R4 || s.pc == R5
  {
    if s.pc == R2 || s.pc == R3 { assert s.disk.pending[0].Move?; }
  }

  // ---- A run that gets stuck ----

  function Ticks(n: nat): seq<Event> { seq(n, (_: nat) => Tick) }

  lemma RunSnoc(s: Sys, events: seq<Event>, e: Event)
    ensures Run(s, events + [e]) == Step(Run(s, events), e)
  {
    assert (events + [e])[..|events|] == events;
  }

  /** `n` steps of the process. */
  function After(s: Sys, n: nat): Sys {
    if n == 0 then s else Next(After(s, n - 1))
  }

  lemma {:induction false} RunTicks(s: Sys, events: seq<Event>, n: nat)
    ensures Run(s, events + Ticks(n)) == After(Run(s, events), n)
  {
    hide Next;
    if n == 0 {
      assert events + Ticks(0) == events;
    } else {
      RunTicks(s, events, n - 1);
      RunSnoc(s, events + Ticks(n - 1), Tick);
      assert events + Ticks(n - 1) + [Tick] == events + Ticks(n);
    }
  }

  const COMMIT_STEPS: seq<Pc> := [C0, C1, C2, C3, C4, C5, C6, C7]

  lemma {:induction false} CommitSteps(s: Sys, n: nat)
    requires Inv(s) && s.pc == C0 && n <= 7
    ensures Inv(After(s, n)) && After(s, n).pc == COMMIT_STEPS[n]
  {
    hide Inv, Live;
    if n > 0 {
      CommitSteps(s, n - 1);
      NextKeepsInv(After(s, n - 1));
    }
  }

  /** Past the commit point the process finds marker and staging files, and renames the index. */
  lemma CommitReachesWindow(s: Sys)
    requires Inv(s) && s.pc == C7
    ensures var s' := Next(Next(Next(s))); Inv(s') && s'.pc == R2 && Strands(s'.disk, {0})
  {
    NextKeepsInv(s); NextKeepsInv(Next(s)); NextKeepsInv(Next(Next(s)));
    UnfoldLive(s.disk);
    UnfoldLive(Next(s).disk);
    hide Live;
    assert Next(Next(Next(s))).disk.pending[0].Move?;
  }

  lemma BeginSettled(s: Sys)
    requires Inv(s) && s.pc == Idle && Marker !in s.disk.dir
    ensures var s' := Next(Step(s, Begin(true))); Inv(s') && s'.pc == C0
  {
    NextKeepsInv(Step(s, Begin(true)));
    MarkerIsSeen(Step(s, Begin(true)));
    hide Live;
  }

  /**
    Every rekey of every openable volume passes through the window: begin it, let it take
    eleven steps, lose power with the first rename kept, and no command ever opens it again.
   */
  lemma EveryRekeyCanStrand(s: Sys, later: seq<Event>)
    requires Inv(s) && s.pc == Idle && Marker !in s.disk.dir
    ensures var stranded := Run(s, [Begin(true)] + Ticks(11) + [PowerLoss({0})]);
            && Stuck(stranded.disk.dir)
            && Run(stranded, later).disk == stranded.disk && RecoverFully(Run(stranded, later).disk.dir).None?
  {
    hide Inv, Next, Live, Survive;
    var s0, s1 := Step(s, Begin(true)), Next(Step(s, Begin(true)));
    RunSnoc(s, [], Begin(true));
    assert [] + [Begin(true)] == [Begin(true)];
    RunTicks(s, [Begin(true)], 11);
    ElevenSteps(s0);
    BeginSettled(s);
    CommitSteps(s1, 7);
    CommitReachesWindow(After(s1, 7));
    var last := After(s0, 11);
    StuckExactlyWhen(last, {0});
    RunSnoc(s, [Begin(true)] + Ticks(11), PowerLoss({0}));
    StuckForever(Crash(last, {0}), later);
  }

  lemma ElevenSteps(s: Sys)
    ensures After(s, 11) == Next(Next(Next(After(Next(s), 7))))
  {
    hide Next;
    AfterFirst(s, 7);
    assert After(s, 9) == Next(After(s, 8)) && After(s, 11) == Next(Next(After(s, 9)));
  }

  lemma {:induction false} AfterFirst(s: Sys, n: nat)
    ensures After(s, n + 1) == After(Next(s), n)
  {
    hide Next;
    if n > 0 { AfterFirst(s, n - 1); }
  }

  /** A freshly made volume is one of them. */
  lemma FreshVolumeStrands(later: seq<Event>)
    ensures Stuck(Run(FRESH_VOLUME, [Begin(true)] + Ticks(11) + [PowerLoss({0})] + later).disk.dir)
  {
    FreshVolumeInv();
    hide Inv, Stuck;
    RunAppend(FRESH_VOLUME, [Begin(true)] + Ticks(11) + [PowerLoss({0})], later);
    EveryRekeyCanStrand(FRESH_VOLUME, later);
  }

  lemma {:induction false} RunAppend(s: Sys, events: seq<Event>, later: seq<Event>)
    ensures Run(s, events + later) == Run(Run(s, events), later)
    decreases |later|
  {
    hide Step;
    if later == [] {
      assert events + later == events;
    } else {
      assert (events + later)[..|events + later| - 1] == events + later[..|later| - 1];
      RunAppend(s, events, later[..|later| - 1]);
    }
  }

  /** A stuck volume stays as it is under every further command and crash. */
  lemma {:induction false} StuckForever(s: Sys, events: seq<Event>)
    requires (s.pc == Idle || s.pc == R0) && s.disk.pending == [] && Stuck(s.disk.dir)
    ensures var s' := Run(s, events);
            (s'.pc == Idle || s'.pc == R0) && s'.disk == s.disk && RecoverFully(s'.disk.dir).None?
    decreases |events|
  {
    if events != [] {
      StuckForever(s, events[..|events| - 1]);
      UnfoldLive(s.disk);
      hide Live;
    }
  }
}
