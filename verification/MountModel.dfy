/**
  A mounted volume as steps. One dispatcher thread takes requests; data jobs run on a
  pool of workers. A writer takes its inode lock, snapshots the entry under the metadata
  lock, changes the data file, and commits under the metadata lock again. Namespace
  changes run on the dispatcher under the metadata lock alone.
 */
module MountModel {
  import opened Prelude
  import opened SymbolicCrypto
  import opened FlatFile
  import opened BlockStore
  import opened BlockHistory
  import opened Namespace

  type OpId = nat

  datatype Request =
    | WriteData(ino: Ino, offset: nat, data: seq<Byte>)
    | SetSize(ino: Ino, size: nat, mode: Option<nat>)
    | ReadData(ino: Ino, offset: nat, len: nat)
    | Sync(ino: Ino)
    | SyncDir
    | Meta(op: Namespace.Op)

  datatype Pc =
    | Dispatched
    | Checking
    | Queued(seen: Option<Node>)
    | Waiting(seen: Option<Node>)
    | Locked(seen: Option<Node>)
    | Snapping
    | Ready(node: Node)
    | Writing(node: Node, key: Key, before: Option<seq<Cell>>)
    | Written(node: Node, key: Key, size: nat)
    | Committing(node: Node, key: Key, size: nat)
    | SyncHoldsInode
    | Syncing
    | Flushing
    | MetaHolds

  datatype Job = Job(req: Request, pc: Pc)

  /**
    `files` is `data/`; `disk` the tree the durable index file means; `durable` what stable
    storage holds of each data file; `base` and `log` the history of each file's contents.
   */
  datatype State = State(
    tree: Tree, files: map<Ino, seq<Cell>>, jobs: map<OpId, Job>, workers: nat,
    dirty: bool, disk: Fs, durable: map<Ino, seq<Cell>>, synced: set<Ino>,
    base: map<Ino, seq<Byte>>, log: map<Ino, seq<FileOp>>)

  const LIMIT: nat := 0x8000_0000_0000_0000 + 0x1_0000_0000

  /** Offsets are i64 and lengths u32; sizes are bounded like offsets. */
  predicate KernelLimits(req: Request) {
    match req
    case WriteData(_, offset, data) => offset + |data| < LIMIT
    case SetSize(_, size, _) => size < LIMIT
    case ReadData(_, offset, len) => offset + len < LIMIT
    case _ => true
  }

  predicate IsWriter(req: Request) { req.WriteData? || req.SetSize? }

  function FileOpOf(req: Request): FileOp
    requires IsWriter(req)
  {
    match req
    case WriteData(_, offset, data) => Write(offset, data)
    case SetSize(_, size, _) => Truncate(size)
  }

  function NewSize(req: Request, size: nat): nat
    requires IsWriter(req)
  {
    match req
    case WriteData(_, offset, data) => Max(size, offset + |data|)
    case SetSize(_, newSize, _) => newSize
  }

  function Get<V>(m: map<Ino, V>, i: Ino): Option<V> { if i in m then Some(m[i]) else None }

  function Put<V>(m: map<Ino, V>, i: Ino, v: Option<V>): map<Ino, V> {
    match v case Some(x) => m[i := x] case None => m - {i}
  }

  /** The file's contents as the replay of its committed operations. */
  function Content(s: State, i: Ino): seq<Byte> {
    Replay(if i in s.base then s.base[i] else [], if i in s.log then s.log[i] else [])
  }

  // ---- Locks, as held by jobs ----

  predicate HasIno(req: Request) { !req.Meta? && !req.SyncDir? }

  predicate HoldsInnerRead(j: Job) { j.pc.Checking? || j.pc.Snapping? }

  predicate HoldsInnerWrite(j: Job) { j.pc.Committing? || j.pc.Syncing? || j.pc.Flushing? || j.pc.MetaHolds? }

  predicate HoldsInodeWrite(j: Job) {
    && IsWriter(j.req)
    && (j.pc.Locked? || j.pc.Snapping? || j.pc.Ready? || j.pc.Writing? || j.pc.Written? || j.pc.Committing?)
  }

  predicate HoldsInodeRead(j: Job) {
    (j.req.ReadData? && j.pc.Locked?) || j.pc.SyncHoldsInode? || j.pc.Syncing?
  }

  predicate WantsInnerWrite(j: Job) {
    j.pc.Written? || j.pc.SyncHoldsInode? || ((j.req.Meta? || j.req.SyncDir?) && j.pc.Dispatched?)
  }

  predicate WantsInodeWrite(j: Job) { IsWriter(j.req) && j.pc.Waiting? }

  predicate OnDispatcher(j: Job) {
    j.pc.Dispatched? || j.pc.Checking? || j.pc.SyncHoldsInode? || j.pc.Syncing? || j.pc.Flushing? || j.pc.MetaHolds?
  }

  predicate OnWorker(j: Job) {
    || j.pc.Waiting? || j.pc.Locked? || j.pc.Snapping? || j.pc.Ready?
    || j.pc.Writing? || j.pc.Written? || j.pc.Committing?
  }

  function Running(s: State): set<OpId> { set o | o in s.jobs && OnWorker(s.jobs[o]) }

  /** A reader enters when no writer holds the lock; a strict lock also lets waiting writers first. */
  predicate CanReadInner(s: State, strict: bool) {
    forall o | o in s.jobs :: !HoldsInnerWrite(s.jobs[o]) && (strict ==> !WantsInnerWrite(s.jobs[o]))
  }

  predicate CanWriteInner(s: State) {
    forall o | o in s.jobs :: !HoldsInnerWrite(s.jobs[o]) && !HoldsInnerRead(s.jobs[o])
  }

  predicate SameIno(j: Job, ino: Ino) { HasIno(j.req) && j.req.ino == ino }

  predicate CanReadInode(s: State, ino: Ino, strict: bool) {
    forall o | o in s.jobs && SameIno(s.jobs[o], ino) :: !HoldsInodeWrite(s.jobs[o]) &&
      (strict ==> !WantsInodeWrite(s.jobs[o]))
  }

  predicate CanWriteInode(s: State, ino: Ino) {
    forall o | o in s.jobs && SameIno(s.jobs[o], ino) :: !HoldsInodeWrite(s.jobs[o]) && !HoldsInodeRead(s.jobs[o])
  }

  // ---- Steps ----

  datatype Action =
    | Arrive(o: OpId, req: Request)
    | BeginCheck(o: OpId)
    | Check(o: OpId)
    | Pick(o: OpId)
    | LockInode(o: OpId)
    | BeginSnap(o: OpId)
    | Snap(o: OpId)
    | BeginData(o: OpId, fresh': Key, partial: Option<seq<Cell>>, flushed: Option<seq<Cell>>)
    | EndData(o: OpId, ok: bool, after: Option<seq<Cell>>, flushed: Option<seq<Cell>>)
    | BeginCommit(o: OpId)
    | Commit(o: OpId)
    | FinishRead(o: OpId)
    | SyncLock(o: OpId)
    | SyncInner(o: OpId)
    | FinishSync(o: OpId)
    | BeginFlush(o: OpId)
    | FinishFlush(o: OpId)
    | BeginMeta(o: OpId)
    | FinishMeta(o: OpId)

  ghost predicate Enabled(s: State, a: Action, strict: bool) {
    if a.Arrive? then
      && a.o !in s.jobs && KernelLimits(a.req) && (a.req.Meta? ==> Admissible(s.tree, a.req.op))
      && forall o | o in s.jobs :: !OnDispatcher(s.jobs[o])
    else
      && a.o in s.jobs
      && var j := s.jobs[a.o];
         match a
         case Arrive(_, _) => true
         case BeginCheck(_) => (IsWriter(j.req) || j.req.ReadData?) && j.pc.Dispatched? && CanReadInner(s, strict)
         case Check(_) => j.pc.Checking?
         case Pick(_) => j.pc.Queued? && |Running(s)| < s.workers
         case LockInode(_) =>
           && j.pc.Waiting? && HasIno(j.req)
           && (if IsWriter(j.req) then CanWriteInode(s, j.req.ino) else CanReadInode(s, j.req.ino, strict))
         case BeginSnap(_) => j.pc.Locked? && IsWriter(j.req) && CanReadInner(s, strict)
         case Snap(_) => j.pc.Snapping?
         case BeginData(_, _, _, _) => j.pc.Ready?
         case EndData(_, ok, after, _) =>
           && j.pc.Writing? && IsWriter(j.req)
           && (j.req.ino in s.tree.fs ==> ok && DataEffect(j.pc.before, j.pc.key, j.pc.node.size, FileOpOf(j.req),
             after))
         case BeginCommit(_) => j.pc.Written? && CanWriteInner(s)
         case Commit(_) => j.pc.Committing?
         case FinishRead(_) => j.pc.Locked? && j.req.ReadData?
         case SyncLock(_) => j.req.Sync? && j.pc.Dispatched? && CanReadInode(s, j.req.ino, strict)
         case SyncInner(_) => j.pc.SyncHoldsInode? && CanWriteInner(s)
         case FinishSync(_) => j.pc.Syncing?
         case BeginFlush(_) => j.req.SyncDir? && j.pc.Dispatched? && CanWriteInner(s)
         case FinishFlush(_) => j.pc.Flushing?
         case BeginMeta(_) => j.req.Meta? && j.pc.Dispatched? && CanWriteInner(s)
         case FinishMeta(_) => j.pc.MetaHolds?
  }

  function At(s: State, o: OpId, pc: Pc): State
    requires o in s.jobs
  {
    s.(jobs := s.jobs[o := s.jobs[o].(pc := pc)])
  }

  function Gone(s: State, o: OpId): State {
    s.(jobs := s.jobs - {o})
  }

  /** The entry is a file, as every data request requires. */
  predicate IsFile(fs: Fs, i: Ino) { i in fs && fs[i].kind == File }

  function DoBeginData(s: State, o: OpId, fresh': Key, partial: Option<seq<Cell>>, flushed: Option<seq<Cell>>): State
    requires o in s.jobs && s.jobs[o].pc.Ready? && HasIno(s.jobs[o].req)
  {
    var i, node := s.jobs[o].req.ino, s.jobs[o].pc.node;
    var key := if node.key.Some? then node.key.value else fresh';
    At(s, o, Writing(node, key, Get(s.files, i)))
      .(files := Put(s.files, i, partial), durable := Put(s.durable, i, flushed), synced := s.synced - {i})
  }

  function DoEndData(s: State, o: OpId, ok: bool, after: Option<seq<Cell>>, flushed: Option<seq<Cell>>): State
    requires o in s.jobs && s.jobs[o].pc.Writing? && IsWriter(s.jobs[o].req)
  {
    var j := s.jobs[o];
    var t := if ok then At(s, o, Written(j.pc.node, j.pc.key, NewSize(j.req, j.pc.node.size))) else Gone(s, o);
    t.(files := Put(s.files, j.req.ino, after), durable := Put(s.durable, j.req.ino, flushed))
  }

  /** The entry as a commit leaves it; a setattr may carry new permission bits. */
  function CommitNode(node: Node, req: Request, key: Key, size: nat): Node {
    var perm := if req.SetSize? && req.mode.Some? then req.mode.value % 512 else node.perm;
    node.(key := Some(key), size := size, perm := perm)
  }

  /** Write back size and key if the entry is still there; a truncate also saves the index. */
  function DoCommit(s: State, o: OpId): State
    requires o in s.jobs && s.jobs[o].pc.Committing? && IsWriter(s.jobs[o].req)
  {
    var j := s.jobs[o];
    var i := j.req.ino;
    if i !in s.tree.fs then Gone(s, o)
    else
      var fs := s.tree.fs[i := CommitNode(s.tree.fs[i], j.req, j.pc.key, j.pc.size)];
      var earlier := if i in s.log then s.log[i] else [];
      Gone(s, o).(tree := s.tree.(fs := fs), log := s.log[i := earlier + [FileOpOf(j.req)]],
                  dirty := j.req.WriteData?, disk := if j.req.SetSize? then fs else s.disk)
  }

  /** Save the index if it is dirty. */
  function DoFlush(s: State, o: OpId): State {
    Gone(s, o).(disk := if s.dirty then s.tree.fs else s.disk, dirty := false)
  }

  /** Sync the data file, then save the index if it is dirty. */
  function DoSync(s: State, o: OpId): State
    requires o in s.jobs && HasIno(s.jobs[o].req)
  {
    var i := s.jobs[o].req.ino;
    DoFlush(s, o).(durable := Put(s.durable, i, Get(s.files, i)), synced := s.synced + {i})
  }

  /** A namespace change saves the index and removes the data files of removed entries. */
  ghost function DoMeta(s: State, o: OpId): State
    requires o in s.jobs && s.jobs[o].req.Meta?
  {
    var (tree, reply) := Namespace.Step(s.tree, s.jobs[o].req.op);
    if reply.Failed? then Gone(s, o)
    else Gone(s, o).(tree := tree, files := s.files - (s.tree.fs.Keys - tree.fs.Keys), disk := tree.fs, dirty := false)
  }

  /** A step that only moves the program counter of its job, or ends it. */
  predicate MovesOnly(a: Action) {
    !(a.Arrive? || a.BeginData? || a.EndData? || a.Commit? || a.FinishSync? || a.FinishFlush? || a.FinishMeta?)
  }

  function Move(s: State, a: Action): (s': State)
    requires MovesOnly(a) && a.o in s.jobs && WellTyped(s.jobs[a.o])
    requires (a.Pick? ==> s.jobs[a.o].pc.Queued?) && (a.LockInode? ==> s.jobs[a.o].pc.Waiting?)
    requires (a.Check? || a.Snap? ==> HasIno(s.jobs[a.o].req)) && (a.BeginCommit? ==> s.jobs[a.o].pc.Written?)
    ensures s' == s.(jobs := s'.jobs)
  {
    var j := s.jobs[a.o];
    match a
    case BeginCheck(o) => At(s, o, Checking)
    case Check(o) =>
      if IsFile(s.tree.fs, j.req.ino) then At(s, o, Queued(if j.req.ReadData? then Some(s.tree.fs[j.req.ino])
        else None))
      else Gone(s, o)
    case Pick(o) => At(s, o, Waiting(j.pc.seen))
    case LockInode(o) => At(s, o, Locked(j.pc.seen))
    case BeginSnap(o) => At(s, o, Snapping)
    case Snap(o) => if j.req.ino in s.tree.fs then At(s, o, Ready(s.tree.fs[j.req.ino])) else Gone(s, o)
    case BeginCommit(o) => At(s, o, Committing(j.pc.node, j.pc.key, j.pc.size))
    case FinishRead(o) => Gone(s, o)
    case SyncLock(o) => At(s, o, SyncHoldsInode)
    case SyncInner(o) => At(s, o, Syncing)
    case BeginFlush(o) => At(s, o, Flushing)
    case BeginMeta(o) => At(s, o, MetaHolds)
  }

  ghost function Do(s: State, a: Action): State
    requires Enabled(s, a, false) && Typed(s)
  {
    match a
    case Arrive(o, req) => s.(jobs := s.jobs[o := Job(req, Dispatched)])
    case BeginData(o, fresh', partial, flushed) => DoBeginData(s, o, fresh', partial, flushed)
    case EndData(o, ok, after, flushed) => DoEndData(s, o, ok, after, flushed)
    case Commit(o) => DoCommit(s, o)
    case FinishSync(o) => DoSync(s, o)
    case FinishFlush(o) => DoFlush(s, o)
    case FinishMeta(o) => DoMeta(s, o)
    case _ => Move(s, a)
  }

  /** A job's program counter belongs to its kind of request. */
  predicate WellTyped(j: Job) {
    && KernelLimits(j.req)
    && match j.pc
       case Dispatched => true
       case Checking => IsWriter(j.req) || j.req.ReadData?
       case Queued(seen) => if j.req.ReadData? then seen.Some? else IsWriter(j.req)
       case Waiting(seen) => if j.req.ReadData? then seen.Some? else IsWriter(j.req)
       case Locked(seen) => if j.req.ReadData? then seen.Some? else IsWriter(j.req)
       case Snapping => IsWriter(j.req)
       case Ready(_) => IsWriter(j.req)
       case Writing(_, _, _) => IsWriter(j.req)
       case Written(_, _, _) => IsWriter(j.req)
       case Committing(_, _, _) => IsWriter(j.req)
       case SyncHoldsInode => j.req.Sync?
       case Syncing => j.req.Sync?
       case Flushing => j.req.SyncDir?
       case MetaHolds => j.req.Meta?
  }

  predicate Typed(s: State) {
    forall o | o in s.jobs :: WellTyped(s.jobs[o])
  }
}
