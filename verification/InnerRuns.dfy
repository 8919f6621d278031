/** Whole runs of namespace operations on the encrypted directory index. */
module InnerRuns {
  import opened Prelude
  import opened Namespace
  import opened IndexModel
  import opened Inner
  import opened Reload

  /** No other name in the directory an operation puts a name into has the same hash. */
  ghost predicate NoClashFor(c: Crypto, fs: Fs, op: Op) {
    match op
    case Create(parent, name, _, _) => NoClash(c, fs, parent, name)
    case Mkdir(parent, name, _) => NoClash(c, fs, parent, name)
    case MakeSymlink(parent, name, _) => NoClash(c, fs, parent, name)
    case Rename(_, _, newParent, newName) => NoClash(c, fs, newParent, newName)
    case _ => true
  }

  ghost predicate Possible(c: Crypto, t: Tree, ops: seq<Op>) {
    forall i | 0 <= i < |ops| :: Admissible(Run(t, ops[..i]), ops[i]) && NoClashFor(c, Run(t, ops[..i]).fs, ops[i])
  }

  method Perform(inner: PqfsInner, c: Crypto, op: Op) returns (reply: Reply)
    requires inner.Valid(c) && Admissible(inner.Meaning(c), op) && NoClashFor(c, inner.View(c), op)
    modifies inner
    ensures inner.Valid(c) && (inner.Meaning(c), reply) == Step(old(inner.Meaning(c)), op)
  {
    hide PqfsInner.Valid, NoClash, StepMake, StepUnlink, StepRmdir, StepRename, NodeOf;
    match op {
      case Create(parent, name, mode, key) => reply := inner.Create(c, parent, name, mode, key);
      case Mkdir(parent, name, mode) => reply := inner.Mkdir(c, parent, name, mode);
      case MakeSymlink(parent, name, target) => reply := inner.MakeSymlink(c, parent, name, target);
      case Unlink(parent, name) => reply := inner.Unlink(c, parent, name);
      case Rmdir(parent, name) => reply := inner.Rmdir(c, parent, name);
      case Rename(parent, name, newParent, newName) => reply := inner.Rename(c, parent, name, newParent, newName);
      case Chmod(ino, mode) =>
        ghost var before := inner.Meaning(c);
        reply := inner.ApplySetattr(c, ino, Some(mode), None);
        assert inner.Meaning(c) == StepChmod(before, ino, mode).0;
    }
  }

  /**
    In every reachable state the tree is the abstract one, the indexes are exact, and a clear
    dirty flag means that the stored index reloads to the entries.
   */
  method RunAll(inner: PqfsInner, c: Crypto, ops: seq<Op>)
    requires inner.Valid(c) && Possible(c, inner.Meaning(c), ops)
    modifies inner
    ensures inner.Valid(c) && inner.Meaning(c) == Run(old(inner.Meaning(c)), ops)
    ensures IndexExact(inner.entries, inner.children, inner.byParent)
  {
    ghost var start := inner.Meaning(c);
    var i := 0;
    while i < |ops|
      invariant 0 <= i <= |ops|
      invariant inner.Valid(c) && inner.Meaning(c) == Run(start, ops[..i])
    {
      hide PqfsInner.Valid, NoClashFor, Admissible, Step;
      assert ops[..i + 1][..i] == ops[..i];
      var _ := Perform(inner, c, ops[i]);
      i := i + 1;
    }
    assert ops[..|ops|] == ops;
    GoodFacts(c, inner.entries, inner.children, inner.byParent, inner.nextIno);
  }

  /** Rebuilding the indexes of a valid state from its entries gives the ones it has. */
  method RebuildChangesNothing(inner: PqfsInner, c: Crypto) returns (again: PqfsInner)
    requires inner.Valid(c)
    ensures fresh(again) && again.entries == inner.entries
    ensures again.children == inner.children && again.byParent == inner.byParent
  {
    hide Namespace.Valid, EntriesOk, IndexExact, UniqueSlots, LastWins, ByParentExact;
    ValidIsStoredGood(inner, c);
    GoodFacts(c, inner.entries, inner.children, inner.byParent, inner.nextIno);
    again := new PqfsInner(inner.entries, inner.nextIno, inner.index, inner.dataFiles);
    again.RebuildIndexes();
    IndexIsUnique(inner.entries, inner.children, inner.byParent, again.children, again.byParent);
  }
}
