/**
  A rekey end to end: the slots of the header, the entries of the index and the crash-safe
  swap together. Every key generation of the swap stands for a real header and a real index.
 */
module RekeyWhole {
  import opened Prelude
  import opened SymbolicCrypto
  import opened BlockStore
  import opened BlockHistory
  import opened Namespace
  import opened IndexModel
  import opened Inner
  import opened Reload
  import K = KeySlots
  import C = Commands
  import S = RekeySwap
  import D = RekeyDeaths

  // ---- File reads before and after ----

  /** Look a file up by name and read from it, given its data file. */
  method ReadByName(inner: PqfsInner, c: Crypto, file: DataFile, parent: Ino, name: string, offset: nat, len: nat)
    returns (ino: Option<Ino>, r: Result<seq<Byte>, IoError>)
    requires inner.Valid(c) && offset + len < TWO64 && forall i | i in inner.entries :: Fits(inner.entries[i].size)
    ensures ino == Lookup(inner.View(c), parent, name) && (ino.Some? ==> ino.value in inner.View(c))
    ensures ino.Some? && inner.View(c)[ino.value].key.Some? ==>
      ReadReply(file.contents, inner.View(c)[ino.value].key.value, inner.View(c)[ino.value].size, offset, len, r)
  {
    hide Namespace.Valid, IndexExact, Lookup, ReadReply, Represents, Fits;
    GoodFacts(c, inner.entries, inner.children, inner.byParent, inner.nextIno);
    var found := inner.FindChild(c, parent, name);
    if found.None? {
      return None, Err(Missing);
    }
    ino := Some(found.value.ino);
    var key := Decrypt(c, found.value.contentKey);
    if key.None? {
      return ino, Err(Missing);
    }
    r := ReadFile(file, key.value, found.value.size, offset, len);
  }

  /** After a rekey every name finds the same inode, and every read of it the same bytes. */
  method ReadsSurviveRekey(inner: PqfsInner, old': Crypto, new': Crypto, file: DataFile, parent: Ino, name: string,
    offset: nat, len: nat)
    returns (ino: Option<Ino>, before: Result<seq<Byte>, IoError>, ino': Option<Ino>, after: Result<seq<Byte>, IoError>)
    requires inner.Valid(old') && !inner.dirty && inner.index.Sealed? && SiblingsSeparated(new', inner.View(old'))
    requires offset + len < TWO64 && forall i | i in inner.entries :: Fits(inner.entries[i].size)
    ensures ino == ino' == Lookup(inner.View(old'), parent, name) && (ino.Some? ==> ino.value in inner.View(old'))
    ensures ino.Some? && inner.View(old')[ino.value].key.Some? ==>
      && before.Ok? == after.Ok? && (before.Ok? ==> before.value == after.value)
      && ReadReply(file.contents, inner.View(old')[ino.value].key.value, inner.View(old')[ino.value].size, offset, len,
        after)
  {
    hide PqfsInner.Valid, SiblingsSeparated, Lookup, ReadReply, Fits;
    ino, before := ReadByName(inner, old', file, parent, name, offset, len);
    var again := RekeyAndLoad(inner, old', new');
    SameSizes(old', new', inner.entries, again.entries);
    ino', after := ReadByName(again, new', file, parent, name, offset, len);
    if ino.Some? && inner.View(old')[ino.value].key.Some? {
      var node := inner.View(old')[ino.value];
      ReadReplyIsDetermined(file.contents, node.key.value, node.size, offset, len, before, after);
    }
  }

  lemma SameSizes(old': Crypto, new': Crypto, entries: Entries, entries': Entries)
    requires ViewOf(new', entries') == ViewOf(old', entries)
    ensures entries'.Keys == entries.Keys && forall i | i in entries :: entries'[i].size == entries[i].size
  {
    assert entries'.Keys == ViewOf(new', entries').Keys && entries.Keys == ViewOf(old', entries).Keys;
    forall i | i in entries ensures entries'[i].size == entries[i].size {
      assert ViewOf(new', entries')[i].size == ViewOf(old', entries)[i].size;
    }
  }

  // ---- What a generation stands for ----

  datatype Vol = Vol(header: K.Header, index: Blob<Entries>)

  /** The keyed filename hash of each master key. */
  type Hashes = Key -> string -> nat

  function CryptoOf(hmac: Hashes, master: Key): Crypto { Crypto(master, hmac(master)) }

  /** Opened by exactly those who open `origin`, to a key under which the index means `fs`. */
  ghost predicate Faithful(hmac: Hashes, v: Vol, origin: K.Header, fs: Fs) {
    && C.WellFormed(v.header) && K.HeaderLen(v.header) <= K.MAX_HEADER_BYTES && C.SameCredentials(origin, v.header)
    && IndexMeans(CryptoOf(hmac, C.MasterOf(v.header)), v.index, fs)
  }

  ghost predicate IndexMeans(c: Crypto, index: Blob<Entries>, fs: Fs) {
    Decrypt(c, index).Some? && EntriesOk(c, Decrypt(c, index).value) && ViewOf(c, Decrypt(c, index).value) == fs
  }

  /** The index `v'` holds every entry of `v` rewrapped, as `rekey_index` leaves it. */
  ghost predicate IndexRewrapped(old': Crypto, new': Crypto, index: Blob<Entries>, index': Blob<Entries>) {
    && Stored(old', index).Some? && Decrypt(new', index').Some?
    && AllRewrapped(old', new', Stored(old', index).value, Decrypt(new', index').value)
  }

  /** `v'` is what the rekey command stages for `v`; the password given is the slot's own. */
  ghost predicate RekeysTo(hmac: Hashes, v: Vol, v': Vol, args: C.CredentialArgs, newMaster: Key, draw: C.Draw) {
    && C.WellFormed(v.header) && C.RewrapsSamePassword(v.header, args)
    && C.Execute(Some(v.header), C.Rekey(args, newMaster, draw)) == Ok(v'.header)
    && IndexRewrapped(CryptoOf(hmac, C.MasterOf(v.header)), CryptoOf(hmac, newMaster), v.index, v'.index)
  }

  /** The rekey command up to its commit: slots first, then the index. */
  method StageRekey(hmac: Hashes, v: Vol, args: C.CredentialArgs, newMaster: Key, draw: C.Draw) returns (r: Option<Vol>)
    requires C.WellFormed(v.header) && C.RewrapsSamePassword(v.header, args)
    ensures r.Some? ==> RekeysTo(hmac, v, r.value, args, newMaster, draw)
    ensures r.None? ==>
      || C.Execute(Some(v.header), C.Rekey(args, newMaster, draw)).Err?
      || Stored(CryptoOf(hmac, C.MasterOf(v.header)), v.index).None?
      || !EntriesOk(CryptoOf(hmac, C.MasterOf(v.header)), Stored(CryptoOf(hmac, C.MasterOf(v.header)), v.index).value)
  {
    hide K.HeaderOk, C.RewrapsSamePassword, C.Execute, AllRewrapped, CanRewrap, Readable;
    var old', new' := CryptoOf(hmac, C.MasterOf(v.header)), CryptoOf(hmac, newMaster);
    var volume := new C.Volume(Some(v.header));
    var slots := volume.Rekey(args, newMaster, draw);
    if slots.Err? {
      return None;
    }
    var index := RekeyIndex(old', new', v.index);
    if index.Err? {
      if Stored(old', v.index).Some? && EntriesOk(old', Stored(old', v.index).value) {
        ReadableCanRewrap(old', Stored(old', v.index).value);
      }
      return None;
    }
    r := Some(Vol(volume.stored.value, index.value));
  }

  lemma IndexStaysFaithful(old': Crypto, new': Crypto, index: Blob<Entries>, index': Blob<Entries>, fs: Fs)
    requires IndexMeans(old', index, fs) && IndexRewrapped(old', new', index, index')
    ensures IndexMeans(new', index', fs)
  {
    RekeyPreservesMeaning(old', new', Stored(old', index).value, Decrypt(new', index').value);
    hide AllRewrapped, EntriesOk, ViewOf;
  }

  lemma RekeyStaysFaithful(hmac: Hashes, v: Vol, v': Vol, args: C.CredentialArgs, newMaster: Key, draw: C.Draw,
    origin: K.Header, fs: Fs)
    requires Faithful(hmac, v, origin, fs) && RekeysTo(hmac, v, v', args, newMaster, draw)
    ensures Faithful(hmac, v', origin, fs) && C.MasterOf(v'.header) == newMaster
  {
    hide K.HeaderOk, C.RewrapsSamePassword, C.Execute, K.HeaderLen, K.OpenedBy, IndexMeans, IndexRewrapped;
    var command := C.Rekey(args, newMaster, draw);
    C.CommandKeepsHeader(v.header, command);
    C.CommandGrows(v.header, command);
    C.RekeyKeepsCredentialsIff(v.header, args, newMaster, draw);
    IndexStaysFaithful(CryptoOf(hmac, C.MasterOf(v.header)), CryptoOf(hmac, newMaster), v.index, v'.index, fs);
  }

  // ---- The swap with real contents ----

  /** The swap machine, and what each generation so far stands for. */
  datatype World = World(sys: S.Sys, vols: map<nat, Vol>)

  datatype Event =
    | Begin(rekey: bool)
    | Tick
    | Stage(made: Vol, args: C.CredentialArgs, newMaster: Key, draw: C.Draw)
    | Die
    | PowerLoss(keep: set<nat>)

  /** The next step of the process ends recovery and starts a rekey. */
  predicate Starts(s: S.Sys) { s.rekey && S.Next(s).pc == S.C0 }

  /** A rekey that is about to start stages the volume it finds, or refuses. */
  ghost predicate IsStep(hmac: Hashes, w: World, e: Event, w': World) {
    match e
    case Begin(rekey) => w' == w.(sys := S.Step(w.sys, S.Begin(rekey)))
    case Die => w' == w.(sys := S.Step(w.sys, S.Die))
    case PowerLoss(keep) => w' == w.(sys := S.Step(w.sys, S.PowerLoss(keep)))
    case Tick => w' == w.(sys := S.Next(if Starts(w.sys) then w.sys.(rekey := false) else w.sys))
    case Stage(made, args, newMaster, draw) =>
      && Starts(w.sys)
      && var sys := S.Next(w.sys);
         var found := S.PairGen(S.Live(sys.disk));
         && found in w.vols && RekeysTo(hmac, w.vols[found], made, args, newMaster, draw)
         && w' == World(sys, w.vols[sys.gen := made])
  }

  /** Every generation so far stands for the same volume. */
  ghost predicate AllFaithful(hmac: Hashes, w: World, origin: K.Header, fs: Fs) {
    forall g: nat | g < w.sys.next :: g in w.vols && Faithful(hmac, w.vols[g], origin, fs)
  }

  ghost predicate Inv(hmac: Hashes, w: World, origin: K.Header, fs: Fs) {
    S.Inv(w.sys) && S.IndexFile in w.sys.disk.dir && AllFaithful(hmac, w, origin, fs)
  }

  /** The same for runs without power loss, about what processes see. */
  ghost predicate SeenInv(hmac: Hashes, w: World, origin: K.Header, fs: Fs) {
    D.LiveInv(w.sys) && S.IndexFile in S.Live(w.sys.disk) && AllFaithful(hmac, w, origin, fs)
  }

  /** A volume with an index file, before any rekey. */
  lemma StartInv(hmac: Hashes, v: Vol, fs: Fs)
    requires Faithful(hmac, v, v.header, fs)
    ensures var w := World(S.FRESH_VOLUME, map[0 := v]); Inv(hmac, w, v.header, fs) && SeenInv(hmac, w, v.header, fs)
  {
    S.FreshVolumeInv();
    D.LiveStart(S.FRESH_VOLUME);
  }

  lemma IndexFileStays(s: S.Sys, keep: set<nat>)
    requires S.Inv(s) && S.IndexFile in s.disk.dir
    ensures S.IndexFile in S.Next(s).disk.dir && S.IndexFile in S.Survive(s.disk.dir, s.disk.pending, keep)
  {
    if S.Unsynced(s) {
      S.SurviveStaging(s.disk.dir, s.disk.pending, keep);
      hide S.ApplyAll, S.Survive, S.Without;
      assert !S.IsStaging(S.IndexFile);
    } else {
      S.InvPendingShort(s);
      S.UnfoldSurvive(s.disk.dir, s.disk.pending, keep);
      S.UnfoldLive(s.disk);
      hide S.Live, S.Survive;
    }
  }

  /** A rekey starts from the pair a process sees, and takes the next generation. */
  lemma StartFacts(s: S.Sys)
    requires S.Inv(s) || D.LiveInv(s)
    ensures if Starts(s) then S.Next(s).gen == s.next && S.Next(s).next == s.next + 1 &&
      S.PairGen(S.Live(S.Next(s).disk)) < s.next
            else S.Next(s).next == s.next
    ensures !Starts(s.(rekey := false))
  {
    if Starts(s) {
      StartsSettled(s);
    }
    hide S.Live, S.PairGen;
  }

  lemma StartsSettled(s: S.Sys)
    requires (S.Inv(s) || D.LiveInv(s)) && Starts(s)
    ensures S.PairGen(S.Live(S.Next(s).disk)) < s.next
  {
    LiveOfSynced(s.disk);
    if S.Inv(s) {
      InvStartsSettled(s);
    } else {
      hide S.Live;
    }
  }

  lemma LiveOfSynced(disk: S.Disk)
    ensures S.Live(S.SyncDir(disk)) == S.Live(disk)
  {
  }

  lemma InvStartsSettled(s: S.Sys)
    requires S.Inv(s) && Starts(s)
    ensures S.PairGen(S.Live(S.Next(s).disk)) < s.next
  {
    LiveOfSynced(s.disk);
    if s.pc == S.R0 && S.Unsynced(s) {
      S.SurviveStaging(s.disk.dir, s.disk.pending, {});
      hide S.ApplyAll;
      S.SettledButStaging(s.disk.dir, S.Live(s.disk), s.floor, s.next);
    } else {
      S.UnfoldLive(s.disk);
      hide S.Live;
    }
  }

  lemma WithoutRekey(s: S.Sys)
    ensures S.Inv(s) ==> S.Inv(s.(rekey := false))
    ensures D.LiveInv(s) ==> D.LiveInv(s.(rekey := false))
  {
    hide S.Live, S.Settled;
  }

  lemma TickKeepsInv(hmac: Hashes, w: World, w': World, origin: K.Header, fs: Fs)
    requires Inv(hmac, w, origin, fs) && IsStep(hmac, w, Tick, w')
    ensures Inv(hmac, w', origin, fs)
  {
    hide S.Inv, S.Next, S.Survive, Faithful, S.Live;
    var s := if Starts(w.sys) then w.sys.(rekey := false) else w.sys;
    WithoutRekey(w.sys);
    StartFacts(w.sys);
    StartFacts(s);
    S.NextKeepsInv(s);
    IndexFileStays(s, {});
  }

  lemma StageStaysFaithful(hmac: Hashes, w: World, e: Event, w': World, origin: K.Header, fs: Fs)
    requires (S.Inv(w.sys) || D.LiveInv(w.sys)) && AllFaithful(hmac, w, origin, fs) && IsStep(hmac, w, e, w') &&
      e.Stage?
    ensures AllFaithful(hmac, w', origin, fs)
  {
    hide S.Inv, D.LiveInv, S.Next, S.Live, Faithful, RekeysTo;
    StartFacts(w.sys);
    var found := S.PairGen(S.Live(S.Next(w.sys).disk));
    RekeyStaysFaithful(hmac, w.vols[found], e.made, e.args, e.newMaster, e.draw, origin, fs);
  }

  lemma StageKeepsInv(hmac: Hashes, w: World, e: Event, w': World, origin: K.Header, fs: Fs)
    requires Inv(hmac, w, origin, fs) && IsStep(hmac, w, e, w') && e.Stage?
    ensures Inv(hmac, w', origin, fs)
  {
    hide S.Inv, S.Next, S.Survive, AllFaithful, RekeysTo, S.Live;
    StageStaysFaithful(hmac, w, e, w', origin, fs);
    S.NextKeepsInv(w.sys);
    IndexFileStays(w.sys, {});
  }

  /** No process dies while the marker's creation or removal is unsynced. */
  predicate CarefulStep(w: World, e: Event) { e.Die? ==> !S.MarkerUnsynced(w.sys.pc) }

  lemma StepKeepsInv(hmac: Hashes, w: World, e: Event, w': World, origin: K.Header, fs: Fs)
    requires Inv(hmac, w, origin, fs) && IsStep(hmac, w, e, w') && CarefulStep(w, e)
    ensures Inv(hmac, w', origin, fs)
  {
    hide Faithful, S.Survive, S.Inv;
    match e
    case Tick => TickKeepsInv(hmac, w, w', origin, fs);
    case Stage(_, _, _, _) => StageKeepsInv(hmac, w, e, w', origin, fs);
    case Begin(rekey) => S.StepKeepsInv(w.sys, S.Begin(rekey));
    case Die => S.DeathKeepsInv(w.sys);
    case PowerLoss(keep) =>
      S.CrashConsistent(w.sys, keep);
      IndexFileStays(w.sys, keep);
  }

  // ---- Deaths alone ----

  lemma SeenIndexStays(s: S.Sys)
    requires D.LiveInv(s) && S.IndexFile in S.Live(s.disk)
    ensures S.IndexFile in S.Live(S.Next(s).disk)
  {
    hide S.Live, S.WriteAndSync, S.Issue, D.LiveInv;
    if s.pc == S.C1 || s.pc == S.C3 {
      WriteIndexStays(s);
    } else if s.pc == S.C6 {
      MarkerIndexStays(s);
    } else {
      LiveOfSynced(s.disk);
      IssuedIndexStays(s);
    }
  }

  lemma WriteIndexStays(s: S.Sys)
    requires D.LiveInv(s) && (s.pc == S.C1 || s.pc == S.C3) && S.IndexFile in S.Live(s.disk)
    ensures S.IndexFile in S.Live(S.Next(s).disk)
  {
    hide S.Live, S.WriteAndSync, S.Settled;
    if s.pc == S.C1 {
      D.WriteIsSeen(s.disk, S.IndexStaging, S.IndexOf(s.gen));
    } else {
      D.WriteIsSeen(s.disk, S.HeaderStaging, S.HeaderOf(s.gen));
    }
  }

  lemma MarkerIndexStays(s: S.Sys)
    requires D.LiveInv(s) && s.pc == S.C6 && S.IndexFile in S.Live(s.disk)
    ensures S.IndexFile in S.Live(S.Next(s).disk)
  {
    hide S.Live, S.WriteAndSync;
    S.MarkerWritten(s.disk.dir);
    S.MarkerSeen(s.disk.dir, S.Partial);
    S.MarkerSeen(s.disk.dir, S.MarkerByte);
  }

  lemma IssuedIndexStays(s: S.Sys)
    requires S.IndexFile in S.Live(s.disk)
    ensures forall op: S.DirOp | op != S.Drop(S.IndexFile) && !(op.Move? && op.from == S.IndexFile) ::
      S.IndexFile in S.Live(S.Issue(s.disk, op))
  {
    hide S.Live, S.ApplyOp, S.Issue;
    forall op: S.DirOp | op != S.Drop(S.IndexFile) && !(op.Move? && op.from == S.IndexFile)
      ensures S.IndexFile in S.Live(S.Issue(s.disk, op))
    {
      IssueKeepsIndex(s.disk, op);
    }
  }

  lemma IssueKeepsIndex(disk: S.Disk, op: S.DirOp)
    requires S.IndexFile in S.Live(disk) && op != S.Drop(S.IndexFile) && !(op.Move? && op.from == S.IndexFile)
    ensures S.IndexFile in S.Live(S.Issue(disk, op))
  {
    D.ApplySnoc(disk.dir, disk.pending, op);
    hide S.ApplyAll;
  }

  lemma SeenStepKeepsInv(hmac: Hashes, w: World, e: Event, w': World, origin: K.Header, fs: Fs)
    requires SeenInv(hmac, w, origin, fs) && IsStep(hmac, w, e, w') && !e.PowerLoss?
    ensures SeenInv(hmac, w', origin, fs)
  {
    hide Faithful, S.Live, D.LiveInv, S.Next, RekeysTo;
    match e
    case Begin(rekey) => D.LiveStepKeepsInv(w.sys, S.Begin(rekey));
    case Die => D.LiveStepKeepsInv(w.sys, S.Die);
    case Tick =>
      var s := if Starts(w.sys) then w.sys.(rekey := false) else w.sys;
      WithoutRekey(w.sys);
      StartFacts(w.sys);
      StartFacts(s);
      D.LiveStepKeepsInv(s, S.Tick);
      SeenIndexStays(s);
    case Stage(_, _, _, _) =>
      StageStaysFaithful(hmac, w, e, w', origin, fs);
      D.LiveStepKeepsInv(w.sys, S.Tick);
      SeenIndexStays(w.sys);
  }

  // ---- Whole runs ----

  ghost predicate IsRun(hmac: Hashes, worlds: seq<World>, events: seq<Event>) {
    && |worlds| == |events| + 1
    && forall k | 0 <= k < |events| :: IsStep(hmac, worlds[k], events[k], worlds[k + 1])
  }

  lemma {:induction false} RunKeepsInv(hmac: Hashes, worlds: seq<World>, events: seq<Event>, k: nat, origin: K.Header,
    fs: Fs)
    requires IsRun(hmac, worlds, events) && Inv(hmac, worlds[0], origin, fs) && k < |worlds|
    requires forall i | 0 <= i < |events| :: CarefulStep(worlds[i], events[i])
    ensures Inv(hmac, worlds[k], origin, fs)
  {
    hide Inv, IsStep, CarefulStep;
    if k > 0 {
      RunKeepsInv(hmac, worlds, events, k - 1, origin, fs);
      StepKeepsInv(hmac, worlds[k - 1], events[k - 1], worlds[k], origin, fs);
    }
  }

  lemma {:induction false} SeenRunKeepsInv(hmac: Hashes, worlds: seq<World>, events: seq<Event>, k: nat,
    origin: K.Header, fs: Fs)
    requires IsRun(hmac, worlds, events) && SeenInv(hmac, worlds[0], origin, fs) && k < |worlds|
    requires forall i | 0 <= i < |events| :: !events[i].PowerLoss?
    ensures SeenInv(hmac, worlds[k], origin, fs)
  {
    hide SeenInv, IsStep;
    if k > 0 {
      SeenRunKeepsInv(hmac, worlds, events, k - 1, origin, fs);
      SeenStepKeepsInv(hmac, worlds[k - 1], events[k - 1], worlds[k], origin, fs);
    }
  }

  /** The directory names one generation for header and index, one that was staged. */
  predicate NamesOne(d: S.Dir, next: nat) {
    && S.PairGen(d) < next && S.IndexFile in d && S.HeaderFile in d
    && d[S.HeaderFile] == S.HeaderOf(S.PairGen(d)) && d[S.IndexFile] == S.IndexOf(S.PairGen(d))
  }

  lemma RecoveredPair(s: S.Sys, keep: set<nat>)
    requires S.Inv(s) && S.IndexFile in s.disk.dir
    ensures var r := S.RecoverFully(S.Survive(s.disk.dir, s.disk.pending, keep)); r.Some? ==> NamesOne(r.value, s.next)
  {
    S.CrashConsistent(s, keep);
    IndexFileStays(s, keep);
    hide S.Survive;
    RestNamesOne(S.Crash(s, keep));
  }

  lemma RestNamesOne(s: S.Sys)
    requires S.Inv(s) && s.pc == S.Idle && s.disk.pending == [] && S.IndexFile in s.disk.dir
    ensures var r := S.RecoverFully(s.disk.dir); r.Some? ==> NamesOne(r.value, s.next)
  {
  }

  lemma SeenPair(s: S.Sys)
    requires D.LiveInv(s) && S.IndexFile in S.Live(s.disk)
    ensures var r := S.RecoverFully(S.Live(s.disk)); r.Some? ==> NamesOne(r.value, s.next)
  {
    D.SeenDeathKeeps(s);
    hide S.Live;
    SeenRestNamesOne(S.Step(s, S.Die));
  }

  lemma SeenRestNamesOne(s: S.Sys)
    requires D.LiveInv(s) && s.pc == S.Idle && S.IndexFile in S.Live(s.disk)
    ensures var r := S.RecoverFully(S.Live(s.disk)); r.Some? ==> NamesOne(r.value, s.next)
  {
    hide S.Live;
  }

  /**
    What the recovered directory `d` gives a command with this credential: the header and the
    index of one generation; if the credential opened the volume at first it opens it now,
    and its key decrypts the index to the same tree; if not, it does not.
   */
  ghost predicate OpensAsBefore(hmac: Hashes, w: World, d: S.Dir, origin: K.Header, fs: Fs, credential: K.Unlock) {
    && S.HeaderFile in d && d[S.HeaderFile].HeaderOf? && d[S.HeaderFile].gen in w.vols
    && S.IndexFile in d && d[S.IndexFile].IndexOf? && d[S.IndexFile].gen in w.vols
    && var header, index := w.vols[d[S.HeaderFile].gen].header, w.vols[d[S.IndexFile].gen].index;
       && K.ReadHeader(Some(header)) == Ok(header)
       && (K.OpenedBy(origin, credential) ==>
             K.OpenFrom(header, 0, credential).Ok?
             && DiskTree(CryptoOf(hmac, K.OpenFrom(header, 0, credential).value), index) == Some(fs))
       && (!K.OpenedBy(origin, credential) ==> K.OpenFrom(header, 0, credential) == Err(K.NoSlotAccepts))
  }

  lemma NamedOpens(hmac: Hashes, w: World, d: S.Dir, origin: K.Header, fs: Fs, credential: K.Unlock)
    requires NamesOne(d, w.sys.next) && AllFaithful(hmac, w, origin, fs)
    ensures OpensAsBefore(hmac, w, d, origin, fs, credential)
  {
    hide Faithful, S.PairGen;
    FaithfulOpens(hmac, w.vols[S.PairGen(d)], origin, fs, credential);
  }

  /**
    After any careful run of rekeys, deaths and power losses, and one more power loss, the
    next command refuses, or every credential opens as before, to the same tree.
   */
  lemma RekeyIsSafe(hmac: Hashes, worlds: seq<World>, events: seq<Event>, v: Vol, fs: Fs, keep: set<nat>,
    credential: K.Unlock)
    requires Faithful(hmac, v, v.header, fs)
    requires IsRun(hmac, worlds, events) && worlds[0] == World(S.FRESH_VOLUME, map[0 := v])
    requires forall i | 0 <= i < |events| :: CarefulStep(worlds[i], events[i])
    ensures var w := worlds[|events|];
            var r := S.RecoverFully(S.Survive(w.sys.disk.dir, w.sys.disk.pending, keep));
            r.Some? ==> OpensAsBefore(hmac, w, r.value, v.header, fs, credential)
  {
    hide S.Inv, S.Survive, S.RecoverFully, Faithful, S.PairGen, NamesOne, OpensAsBefore, AllFaithful, SeenInv;
    assert |worlds| == |events| + 1;
    StartInv(hmac, v, fs);
    RunKeepsInv(hmac, worlds, events, |events|, v.header, fs);
    var w := worlds[|events|];
    RecoveredPair(w.sys, keep);
    var r := S.RecoverFully(S.Survive(w.sys.disk.dir, w.sys.disk.pending, keep));
    if r.Some? { NamedOpens(hmac, w, r.value, v.header, fs, credential); }
  }

  /** Without power loss, the same after any run with deaths anywhere. */
  lemma RekeySurvivesDeaths(hmac: Hashes, worlds: seq<World>, events: seq<Event>, v: Vol, fs: Fs, credential: K.Unlock)
    requires Faithful(hmac, v, v.header, fs)
    requires IsRun(hmac, worlds, events) && worlds[0] == World(S.FRESH_VOLUME, map[0 := v])
    requires forall i | 0 <= i < |events| :: !events[i].PowerLoss?
    ensures var w := worlds[|events|];
            var r := S.RecoverFully(S.Live(w.sys.disk));
            r.Some? ==> OpensAsBefore(hmac, w, r.value, v.header, fs, credential)
  {
    hide D.LiveInv, S.Live, S.RecoverFully, Faithful, S.PairGen, NamesOne, OpensAsBefore, AllFaithful, Inv;
    assert |worlds| == |events| + 1;
    StartInv(hmac, v, fs);
    SeenRunKeepsInv(hmac, worlds, events, |events|, v.header, fs);
    var w := worlds[|events|];
    SeenPair(w.sys);
    var r := S.RecoverFully(S.Live(w.sys.disk));
    if r.Some? { NamedOpens(hmac, w, r.value, v.header, fs, credential); }
  }

  lemma FaithfulOpens(hmac: Hashes, v: Vol, origin: K.Header, fs: Fs, credential: K.Unlock)
    requires Faithful(hmac, v, origin, fs)
    ensures K.ReadHeader(Some(v.header)) == Ok(v.header)
    ensures K.OpenedBy(origin, credential) ==>
      K.OpenFrom(v.header, 0, credential).Ok?
      && DiskTree(CryptoOf(hmac, K.OpenFrom(v.header, 0, credential).value), v.index) == Some(fs)
    ensures !K.OpenedBy(origin, credential) ==> K.OpenFrom(v.header, 0, credential) == Err(K.NoSlotAccepts)
  {
    hide K.OwnedBy, K.SlotOk, K.HeaderLen, K.OpenFrom, EntriesOk;
    K.OwnersOpen(v.header, C.MasterOf(v.header), 0, credential);
    assert K.OpenedBy(v.header, credential) <==> K.OpenedBy(origin, credential);
  }
}
