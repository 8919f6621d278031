/**
  The filesystem a user sees: inodes with a parent, a plain name and a kind, and the
  operations of `ops.rs` on them. Lookup is a search by parent and name, ancestry is the
  whole parent chain; there is no hashing, no index and no hop bound here.
 */
module Namespace {
  import opened Prelude
  import opened SymbolicCrypto

  type Ino = nat

  const ROOT: Ino := 1

  datatype Kind = File | Dir | Symlink

  datatype Node = Node(parent: Ino, name: string, kind: Kind, size: nat, key: Option<Key>, target: Option<string>,
    perm: nat)

  type Fs = map<Ino, Node>

  datatype Tree = Tree(fs: Fs, next: Ino)

  datatype Errno = ENOENT | EEXIST | ENOTDIR | EISDIR | ENOTEMPTY | EINVAL

  datatype Reply = Done | Created(ino: Ino) | Failed(errno: Errno)

  datatype Op =
    | Create(parent: Ino, name: string, mode: nat, key: Key)
    | Mkdir(parent: Ino, name: string, mode: nat)
    | MakeSymlink(parent: Ino, name: string, target: string)
    | Unlink(parent: Ino, name: string)
    | Rmdir(parent: Ino, name: string)
    | Rename(parent: Ino, name: string, newParent: Ino, newName: string)
    | Chmod(ino: Ino, mode: nat)

  // ---- Lookup and ancestry ----

  ghost predicate IsChild(fs: Fs, parent: Ino, name: string, i: Ino) {
    i in fs && i != ROOT && fs[i].parent == parent && fs[i].name == name
  }

  ghost function Lookup(fs: Fs, parent: Ino, name: string): Option<Ino> {
    if exists i :: IsChild(fs, parent, name, i) then
      var i :| IsChild(fs, parent, name, i);
      Some(i)
    else None
  }

  ghost predicate UniqueNames(fs: Fs) {
    forall i, j | i in fs && j in fs && i != ROOT && j != ROOT && fs[i].parent == fs[j].parent &&
      fs[i].name == fs[j].name :: i == j
  }

  ghost predicate HasChildren(fs: Fs, p: Ino) {
    exists i :: i in fs && i != ROOT && fs[i].parent == p
  }

  /** `n` steps towards the root. */
  function Up(fs: Fs, i: Ino, n: nat): Ino
    decreases n
  {
    if n == 0 || i !in fs then i else Up(fs, fs[i].parent, n - 1)
  }

  /** `a` lies on the reflexive parent chain of `i`. */
  ghost predicate OnChain(fs: Fs, i: Ino, a: Ino) {
    exists n: nat :: Up(fs, i, n) == a
  }

  ghost predicate ParentIsDir(fs: Fs, i: Ino)
    requires i in fs
  {
    fs[i].parent in fs && fs[fs[i].parent].kind == Dir
  }

  ghost predicate ParentsAreDirs(fs: Fs) {
    && ROOT in fs && fs[ROOT].kind == Dir && fs[ROOT].parent == ROOT
    && forall i {:trigger ParentIsDir(fs, i)} | i in fs :: ParentIsDir(fs, i)
  }

  ghost predicate AllReachRoot(fs: Fs) {
    forall i | i in fs :: OnChain(fs, i, ROOT)
  }

  /** One acyclic tree under the root, with distinct names among siblings. */
  ghost predicate IsTree(fs: Fs) {
    ParentsAreDirs(fs) && AllReachRoot(fs) && UniqueNames(fs)
  }

  ghost predicate Valid(t: Tree) {
    IsTree(t.fs) && forall i | i in t.fs :: i < t.next
  }

  // ---- The operations ----

  function NewNode(op: Op): Node
    requires op.Create? || op.Mkdir? || op.MakeSymlink?
  {
    match op
    case Create(parent, name, mode, key) => Node(parent, name, File, 0, Some(key), None, mode % 512)
    case Mkdir(parent, name, mode) => Node(parent, name, Dir, 0, None, None, mode % 512)
    case MakeSymlink(parent, name, target) => Node(parent, name, Symlink, Utf8Len(target), None, Some(target), 511)
  }

  ghost function StepMake(t: Tree, op: Op): (Tree, Reply)
    requires op.Create? || op.Mkdir? || op.MakeSymlink?
  {
    if Lookup(t.fs, op.parent, op.name).Some? then (t, Failed(EEXIST))
    else (Tree(t.fs[t.next := NewNode(op)], t.next + 1), Created(t.next))
  }

  ghost function StepUnlink(t: Tree, parent: Ino, name: string): (Tree, Reply) {
    match Lookup(t.fs, parent, name)
    case None => (t, Failed(ENOENT))
    case Some(i) => if t.fs[i].kind == Dir then (t, Failed(EISDIR)) else (t.(fs := t.fs - {i}), Done)
  }

  ghost function StepRmdir(t: Tree, parent: Ino, name: string): (Tree, Reply) {
    match Lookup(t.fs, parent, name)
    case None => (t, Failed(ENOENT))
    case Some(i) =>
      if t.fs[i].kind != Dir then (t, Failed(ENOTDIR))
      else if HasChildren(t.fs, i) then (t, Failed(ENOTEMPTY))
      else (t.(fs := t.fs - {i}), Done)
  }

  /** Why `source` may not replace `existing`, if it may not. */
  ghost function ReplaceError(fs: Fs, source: Ino, existing: Ino): Option<Errno>
    requires source in fs && existing in fs
  {
    match (fs[source].kind == Dir, fs[existing].kind == Dir)
    case (true, true) => if HasChildren(fs, existing) then Some(ENOTEMPTY) else None
    case (true, false) => Some(ENOTDIR)
    case (false, true) => Some(EISDIR)
    case (false, false) => None
  }

  function Moved(fs: Fs, source: Ino, newParent: Ino, newName: string): Fs
    requires source in fs
  {
    fs[source := fs[source].(parent := newParent, name := newName)]
  }

  ghost function StepRename(t: Tree, parent: Ino, name: string, newParent: Ino, newName: string): (Tree, Reply) {
    match Lookup(t.fs, parent, name)
    case None => (t, Failed(ENOENT))
    case Some(source) =>
      if newParent !in t.fs then (t, Failed(ENOENT))
      else if t.fs[newParent].kind != Dir then (t, Failed(ENOTDIR))
      else if t.fs[source].kind == Dir && OnChain(t.fs, newParent, source) then (t, Failed(EINVAL))
      else
        match Lookup(t.fs, newParent, newName)
        case None => (t.(fs := Moved(t.fs, source, newParent, newName)), Done)
        case Some(existing) =>
          if existing == source then (t.(fs := Moved(t.fs, source, newParent, newName)), Done)
          else
            match ReplaceError(t.fs, source, existing)
            case Some(errno) => (t, Failed(errno))
            case None => (t.(fs := Moved(t.fs - {existing}, source, newParent, newName)), Done)
  }

  ghost function StepChmod(t: Tree, ino: Ino, mode: nat): (Tree, Reply) {
    if ino in t.fs then (t.(fs := t.fs[ino := t.fs[ino].(perm := mode % 512)]), Done) else (t, Failed(ENOENT))
  }

  ghost function Step(t: Tree, op: Op): (Tree, Reply) {
    match op
    case Create(_, _, _, _) => StepMake(t, op)
    case Mkdir(_, _, _) => StepMake(t, op)
    case MakeSymlink(_, _, _) => StepMake(t, op)
    case Unlink(parent, name) => StepUnlink(t, parent, name)
    case Rmdir(parent, name) => StepRmdir(t, parent, name)
    case Rename(parent, name, newParent, newName) => StepRename(t, parent, name, newParent, newName)
    case Chmod(ino, mode) => StepChmod(t, ino, mode)
  }

  /** What the kernel guarantees: new entries are made inside a live directory. */
  ghost predicate Admissible(t: Tree, op: Op) {
    op.Create? || op.Mkdir? || op.MakeSymlink? ==> op.parent in t.fs && t.fs[op.parent].kind == Dir
  }

  // ---- Chains ----

  lemma {:induction false} UpAdd(fs: Fs, i: Ino, m: nat, n: nat)
    ensures Up(fs, i, m + n) == Up(fs, Up(fs, i, m), n)
    decreases m
  {
    if m == 0 || i !in fs {
      if i !in fs { assert Up(fs, i, m + n) == i; }
    } else {
      UpAdd(fs, fs[i].parent, m - 1, n);
    }
  }

  lemma UpZero(fs: Fs, i: Ino)
    ensures Up(fs, i, 0) == i
  {
  }

  lemma {:induction false} UpFromRoot(fs: Fs, n: nat)
    requires ROOT in fs && fs[ROOT].parent == ROOT
    ensures Up(fs, ROOT, n) == ROOT
  {
    if n > 0 { UpFromRoot(fs, n - 1); }
  }

  lemma {:induction false} UpStaysInside(fs: Fs, i: Ino, n: nat)
    requires ParentsAreDirs(fs) && i in fs
    ensures Up(fs, i, n) in fs
    decreases n
  {
    assert ParentIsDir(fs, i);
    if n > 0 { UpStaysInside(fs, fs[i].parent, n - 1); }
  }

  /** Two parent maps that agree along a chain climb it alike. */
  lemma {:induction false} SameClimb(fs: Fs, fs': Fs, i: Ino, n: nat)
    requires forall k: nat | k < n ::
      Up(fs, i, k) in fs && Up(fs, i, k) in fs' && fs'[Up(fs, i, k)].parent == fs[Up(fs, i, k)].parent
    ensures Up(fs', i, n) == Up(fs, i, n)
    decreases n
  {
    if n > 0 {
      assert Up(fs, i, 0) == i;
      forall k: nat | k < n - 1
        ensures Up(fs, fs[i].parent, k) == Up(fs, i, k + 1)
      {
      }
      SameClimb(fs, fs', fs[i].parent, n - 1);
    }
  }

  /** The first arrival at `a` on the chain of `i`. */
  ghost predicate FirstAt(fs: Fs, i: Ino, a: Ino, n: nat) {
    Up(fs, i, n) == a && forall k: nat | k < n :: Up(fs, i, k) != a
  }

  lemma {:induction false} FirstArrival(fs: Fs, i: Ino, a: Ino, n: nat) returns (m: nat)
    requires Up(fs, i, n) == a
    ensures m <= n && FirstAt(fs, i, a, m)
  {
    if k: nat :| k < n && Up(fs, i, k) == a {
      m := FirstArrival(fs, i, a, k);
    } else {
      m := n;
    }
  }

  ghost function ChainSet(fs: Fs, i: Ino, n: nat): set<Ino>
    decreases n
  {
    if n == 0 || i !in fs then {i} else {i} + ChainSet(fs, fs[i].parent, n - 1)
  }

  lemma {:induction false} ChainSetMember(fs: Fs, i: Ino, n: nat, x: Ino)
    requires x in ChainSet(fs, i, n)
    ensures exists k: nat :: k <= n && Up(fs, i, k) == x
    decreases n
  {
    if n == 0 || i !in fs || x == i {
      assert Up(fs, i, 0) == x;
    } else {
      ChainSetMember(fs, fs[i].parent, n - 1, x);
      var k: nat :| k <= n - 1 && Up(fs, fs[i].parent, k) == x;
      assert Up(fs, i, k + 1) == x;
    }
  }

  /** A chain that arrives first at step `n` visits `n + 1` different inodes. */
  lemma {:induction false} ChainIsShort(fs: Fs, i: Ino, n: nat)
    requires ParentsAreDirs(fs) && i in fs && FirstAt(fs, i, ROOT, n)
    ensures |ChainSet(fs, i, n)| == n + 1 && ChainSet(fs, i, n) <= fs.Keys
    decreases n
  {
    if n > 0 {
      var p := fs[i].parent;
      assert ParentIsDir(fs, i);
      assert forall k: nat | k < n - 1 :: Up(fs, p, k) == Up(fs, i, k + 1);
      ChainIsShort(fs, p, n - 1);
      ChainDoesNotReturn(fs, i, n);
    }
  }

  lemma ChainDoesNotReturn(fs: Fs, i: Ino, n: nat)
    requires n > 0 && i in fs && FirstAt(fs, i, ROOT, n)
    ensures i !in ChainSet(fs, fs[i].parent, n - 1)
  {
    if i in ChainSet(fs, fs[i].parent, n - 1) {
      ChainSetMember(fs, fs[i].parent, n - 1, i);
      var k: nat :| k <= n - 1 && Up(fs, fs[i].parent, k) == i;
      UpAdd(fs, i, k + 1, n - k - 1);
    }
  }

  lemma SubsetSize<T>(a: set<T>, b: set<T>)
    requires a <= b
    ensures |a| <= |b|
  {
    assert b == a + (b - a);
  }

  /** The root is fewer than |fs| hops away, so a walk of |fs| + 1 hops is never cut short. */
  lemma DepthBound(fs: Fs, i: Ino) returns (n: nat)
    requires ParentsAreDirs(fs) && i in fs && OnChain(fs, i, ROOT)
    ensures n < |fs| && FirstAt(fs, i, ROOT, n)
  {
    var some: nat :| Up(fs, i, some) == ROOT;
    n := FirstArrival(fs, i, ROOT, some);
    ChainIsShort(fs, i, n);
    SubsetSize(ChainSet(fs, i, n), fs.Keys);
  }

  // ---- What each change does to the tree ----

  lemma ChainClosed(fs: Fs, i: Ino, a: Ino)
    requires i in fs && OnChain(fs, fs[i].parent, a)
    ensures OnChain(fs, i, a)
  {
    var n: nat :| Up(fs, fs[i].parent, n) == a;
    assert Up(fs, i, n + 1) == a;
  }

  /** Every inode that is not a leaf's own start avoids the leaf. */
  lemma ChainAvoidsLeaf(fs: Fs, i: Ino, leaf: Ino, k: nat)
    requires ParentsAreDirs(fs) && i in fs && i != leaf && leaf != ROOT && !HasChildren(fs, leaf)
    ensures Up(fs, i, k) != leaf
  {
    if Up(fs, i, k) == leaf {
      var m := FirstArrival(fs, i, leaf, k);
      UpStaysInside(fs, i, m - 1);
      UpAdd(fs, i, m - 1, 1);
    }
  }

  lemma RemoveLeafKeepsTree(fs: Fs, leaf: Ino)
    requires IsTree(fs) && leaf in fs && leaf != ROOT && !HasChildren(fs, leaf)
    ensures IsTree(fs - {leaf})
  {
    hide Up;
    var fs' := fs - {leaf};
    forall i | i in fs' ensures OnChain(fs', i, ROOT) {
      var n: nat :| Up(fs, i, n) == ROOT;
      forall k: nat | k < n ensures Up(fs, i, k) in fs && Up(fs, i, k) != leaf {
        UpStaysInside(fs, i, k);
        ChainAvoidsLeaf(fs, i, leaf, k);
      }
      SameClimb(fs, fs', i, n);
    }
    forall i | i in fs' ensures ParentIsDir(fs', i) {
      assert ParentIsDir(fs, i);
      assert fs[i].parent != leaf;
    }
  }

  lemma AddedClimb(fs: Fs, ino: Ino, node: Node, i: Ino)
    requires ParentsAreDirs(fs) && ino !in fs && i in fs && OnChain(fs, i, ROOT)
    ensures OnChain(fs[ino := node], i, ROOT)
  {
    hide Up;
    var n: nat :| Up(fs, i, n) == ROOT;
    forall k: nat | k < n ensures Up(fs, i, k) in fs { UpStaysInside(fs, i, k); }
    SameClimb(fs, fs[ino := node], i, n);
  }

  lemma AddLeafKeepsTree(fs: Fs, ino: Ino, node: Node)
    requires IsTree(fs) && ino !in fs && ino != ROOT
    requires node.parent in fs && fs[node.parent].kind == Dir && Lookup(fs, node.parent, node.name).None?
    ensures IsTree(fs[ino := node])
  {
    hide Up;
    hide OnChain;
    var fs' := fs[ino := node];
    forall i | i in fs ensures OnChain(fs', i, ROOT) { AddedClimb(fs, ino, node, i); }
    ChainClosed(fs', ino, ROOT);
    forall i | i in fs' ensures ParentIsDir(fs', i) {
      if i != ino { assert ParentIsDir(fs, i); }
    }
    assert UniqueNames(fs') by {
      forall i | i in fs && i != ROOT ensures !(fs[i].parent == node.parent && fs[i].name == node.name) {
        assert !IsChild(fs, node.parent, node.name, i);
      }
    }
  }

  /** A move under a directory that is not below the moved inode leaves no cycle. */
  lemma MoveReachesRoot(fs: Fs, source: Ino, newParent: Ino, newName: string)
    requires ParentsAreDirs(fs) && AllReachRoot(fs)
    requires source in fs && source != ROOT && newParent in fs && !OnChain(fs, newParent, source)
    ensures AllReachRoot(Moved(fs, source, newParent, newName))
  {
    hide Up;
    var fs' := Moved(fs, source, newParent, newName);
    var up: nat :| Up(fs, newParent, up) == ROOT;
    forall k: nat | k < up ensures Up(fs, newParent, k) in fs && Up(fs, newParent, k) != source {
      UpStaysInside(fs, newParent, k);
    }
    SameClimb(fs, fs', newParent, up);
    assert OnChain(fs', newParent, ROOT);
    ChainClosed(fs', source, ROOT);
    forall i | i in fs' ensures OnChain(fs', i, ROOT) {
      MovedClimb(fs, source, newParent, newName, i);
    }
  }

  /** Any other inode climbs as before, up to the moved one or to the root. */
  lemma MovedClimb(fs: Fs, source: Ino, newParent: Ino, newName: string, i: Ino)
    requires ParentsAreDirs(fs) && AllReachRoot(fs) && source in fs && source != ROOT && i in fs
    requires OnChain(Moved(fs, source, newParent, newName), source, ROOT)
    ensures OnChain(Moved(fs, source, newParent, newName), i, ROOT)
  {
    hide Up;
    var fs' := Moved(fs, source, newParent, newName);
    var n: nat :| Up(fs, i, n) == ROOT;
    if k: nat :| k < n && Up(fs, i, k) == source {
      var m := FirstArrival(fs, i, source, k);
      forall j: nat | j < m ensures Up(fs, i, j) in fs { UpStaysInside(fs, i, j); }
      SameClimb(fs, fs', i, m);
      var rest: nat :| Up(fs', source, rest) == ROOT;
      UpAdd(fs', i, m, rest);
      assert Up(fs', i, m + rest) == ROOT;
    } else {
      forall j: nat | j < n ensures Up(fs, i, j) in fs && Up(fs, i, j) != source { UpStaysInside(fs, i, j); }
      SameClimb(fs, fs', i, n);
    }
  }

  /** A set closed under the parent map and without the root never climbs out. */
  lemma {:induction false} Trapped(fs: Fs, s: set<Ino>, i: Ino, n: nat)
    requires i in s && ROOT !in s && forall x | x in s :: x in fs && fs[x].parent in s
    ensures Up(fs, i, n) != ROOT
    decreases n
  {
    if n > 0 { Trapped(fs, s, fs[i].parent, n - 1); }
  }

  /**
    The descendant check is exactly the right one: on a tree, moving `source` under
    `newParent` keeps every chain reaching the root if and only if `source` is not on
    the chain of `newParent`.
   */
  lemma MoveIsSafeIffNotDescendant(fs: Fs, source: Ino, newParent: Ino, newName: string)
    requires ParentsAreDirs(fs) && AllReachRoot(fs)
    requires source in fs && source != ROOT && newParent in fs
    ensures AllReachRoot(Moved(fs, source, newParent, newName)) <==> !OnChain(fs, newParent, source)
  {
    hide Up;
    if OnChain(fs, newParent, source) {
      var fs' := Moved(fs, source, newParent, newName);
      var some: nat :| Up(fs, newParent, some) == source;
      var m := FirstArrival(fs, newParent, source, some);
      var cycle := set k: nat | k <= m :: Up(fs, newParent, k);
      forall x | x in cycle ensures x in fs' && x != ROOT && fs'[x].parent in cycle {
        var k: nat :| k <= m && x == Up(fs, newParent, k);
        assert newParent in cycle by { UpZero(fs, newParent); assert Up(fs, newParent, 0) in cycle; }
        CycleStep(fs, newParent, source, m, k);
      }
      forall n: nat ensures Up(fs', source, n) != ROOT { Trapped(fs', cycle, source, n); }
      assert !OnChain(fs', source, ROOT);
    } else {
      MoveReachesRoot(fs, source, newParent, newName);
    }
  }

  lemma CycleStep(fs: Fs, newParent: Ino, source: Ino, m: nat, k: nat)
    requires ParentsAreDirs(fs) && newParent in fs && source != ROOT && FirstAt(fs, newParent, source, m) && k <= m
    ensures Up(fs, newParent, k) in fs && Up(fs, newParent, k) != ROOT
    ensures k < m ==> Up(fs, newParent, k) != source && fs[Up(fs, newParent, k)].parent == Up(fs, newParent, k + 1)
  {
    UpStaysInside(fs, newParent, k);
    UpAdd(fs, newParent, k, 1);
    if Up(fs, newParent, k) == ROOT {
      UpFromRoot(fs, m - k);
      UpAdd(fs, newParent, k, m - k);
    }
  }

  // ---- Every step, and every run ----

  lemma LookupChild(fs: Fs, parent: Ino, name: string)
    ensures Lookup(fs, parent, name).Some? ==> IsChild(fs, parent, name, Lookup(fs, parent, name).value)
    ensures Lookup(fs, parent, name).None? ==> forall i :: !IsChild(fs, parent, name, i)
  {
  }

  /** Names are unique, so a search by parent and name has one answer. */
  lemma LookupUnique(fs: Fs, parent: Ino, name: string, i: Ino)
    requires UniqueNames(fs) && IsChild(fs, parent, name, i)
    ensures Lookup(fs, parent, name) == Some(i)
  {
  }

  /** Only directories have children. */
  lemma FilesAreLeaves(fs: Fs, i: Ino)
    requires ParentsAreDirs(fs) && i in fs && fs[i].kind != Dir
    ensures !HasChildren(fs, i)
  {
    forall c | c in fs ensures fs[c].parent != i { assert ParentIsDir(fs, c); }
  }

  /** A file is on no directory's chain. */
  lemma FilesHaveNoDescendants(fs: Fs, source: Ino, dir: Ino)
    requires ParentsAreDirs(fs) && source in fs && fs[source].kind != Dir && dir in fs && fs[dir].kind == Dir
    ensures !OnChain(fs, dir, source)
  {
    FilesAreLeaves(fs, source);
    forall k: nat ensures Up(fs, dir, k) != source { ChainAvoidsLeaf(fs, dir, source, k); }
  }

  lemma MoveKeepsTree(fs: Fs, source: Ino, newParent: Ino, newName: string)
    requires IsTree(fs) && source in fs && source != ROOT
    requires newParent in fs && fs[newParent].kind == Dir && !OnChain(fs, newParent, source)
    requires forall i :: IsChild(fs, newParent, newName, i) ==> i == source
    ensures IsTree(Moved(fs, source, newParent, newName))
  {
    hide Up, OnChain;
    MoveReachesRoot(fs, source, newParent, newName);
    var fs' := Moved(fs, source, newParent, newName);
    forall i | i in fs' ensures ParentIsDir(fs', i) { assert ParentIsDir(fs, i); }
    assert UniqueNames(fs') by {
      forall i | i in fs && i != ROOT && i != source ensures !(fs[i].parent == newParent && fs[i].name == newName) {
        assert !IsChild(fs, newParent, newName, i);
      }
    }
  }

  lemma RemovedChain(fs: Fs, leaf: Ino, i: Ino, a: Ino)
    requires IsTree(fs) && leaf in fs && leaf != ROOT && !HasChildren(fs, leaf) && i in fs && i != leaf
    requires !OnChain(fs, i, a)
    ensures !OnChain(fs - {leaf}, i, a)
  {
    hide Up;
    forall n: nat ensures Up(fs - {leaf}, i, n) != a {
      forall k: nat | k < n ensures Up(fs, i, k) in fs && Up(fs, i, k) != leaf {
        UpStaysInside(fs, i, k);
        ChainAvoidsLeaf(fs, i, leaf, k);
      }
      SameClimb(fs, fs - {leaf}, i, n);
    }
  }

  lemma RenameKeepsTree(t: Tree, parent: Ino, name: string, newParent: Ino, newName: string)
    requires Valid(t)
    ensures Valid(StepRename(t, parent, name, newParent, newName).0)
  {
    hide Up, OnChain, UniqueNames, AllReachRoot, ParentsAreDirs;
    var (t', reply) := StepRename(t, parent, name, newParent, newName);
    if reply == Done {
      LookupChild(t.fs, parent, name);
      LookupChild(t.fs, newParent, newName);
      var source := Lookup(t.fs, parent, name).value;
      if t.fs[source].kind != Dir { FilesHaveNoDescendants(t.fs, source, newParent); }
      var found := Lookup(t.fs, newParent, newName);
      if found.Some? && found.value != source {
        if t.fs[found.value].kind != Dir { FilesAreLeaves(t.fs, found.value); }
        ReplaceKeepsTree(t.fs, source, found.value, newParent, newName);
      } else {
        if found.Some? { OnlyChild(t.fs, newParent, newName, source); }
        MoveKeepsTree(t.fs, source, newParent, newName);
      }
    }
  }

  lemma OnlyChild(fs: Fs, parent: Ino, name: string, i: Ino)
    requires UniqueNames(fs) && IsChild(fs, parent, name, i)
    ensures forall j :: IsChild(fs, parent, name, j) ==> j == i
  {
  }

  lemma ReplaceKeepsTree(fs: Fs, source: Ino, existing: Ino, newParent: Ino, newName: string)
    requires IsTree(fs) && source in fs && source != ROOT && existing != source
    requires newParent in fs && fs[newParent].kind == Dir && !OnChain(fs, newParent, source)
    requires IsChild(fs, newParent, newName, existing) && !HasChildren(fs, existing)
    ensures existing != newParent
    ensures IsTree(Moved(fs - {existing}, source, newParent, newName))
  {
    hide Up, OnChain, ParentsAreDirs, AllReachRoot;
    RemoveLeafKeepsTree(fs, existing);
    RemovedChain(fs, existing, newParent, source);
    OnlyChild(fs, newParent, newName, existing);
    assert forall i :: IsChild(fs - {existing}, newParent, newName, i) ==> IsChild(fs, newParent, newName, i);
    MoveKeepsTree(fs - {existing}, source, newParent, newName);
  }

  lemma MakeKeepsTree(t: Tree, op: Op)
    requires Valid(t) && Admissible(t, op) && (op.Create? || op.Mkdir? || op.MakeSymlink?)
    ensures Valid(StepMake(t, op).0)
  {
    hide Up, OnChain, UniqueNames, AllReachRoot, HasChildren;
    if Lookup(t.fs, op.parent, op.name).None? {
      AddLeafKeepsTree(t.fs, t.next, NewNode(op));
    }
  }

  lemma RemoveKeepsTree(t: Tree, parent: Ino, name: string)
    requires Valid(t)
    ensures Valid(StepUnlink(t, parent, name).0) && Valid(StepRmdir(t, parent, name).0)
  {
    hide Up, OnChain, UniqueNames, AllReachRoot, ParentsAreDirs;
    LookupChild(t.fs, parent, name);
    match Lookup(t.fs, parent, name)
    case None =>
    case Some(i) =>
      if t.fs[i].kind != Dir { FilesAreLeaves(t.fs, i); }
      if !HasChildren(t.fs, i) { RemoveLeafKeepsTree(t.fs, i); }
  }

  /** Replacing a node by one in the same place keeps the tree. */
  lemma SameShapeKeepsTree(t: Tree, ino: Ino, node: Node)
    requires Valid(t) && ino in t.fs
    requires node.parent == t.fs[ino].parent && node.name == t.fs[ino].name && node.kind == t.fs[ino].kind
    ensures Valid(t.(fs := t.fs[ino := node]))
  {
    hide OnChain;
    var fs' := t.fs[ino := node];
    forall i | i in fs' ensures OnChain(fs', i, ROOT) && ParentIsDir(fs', i) {
      assert ParentIsDir(t.fs, i);
      SameShapeClimb(t.fs, ino, node, i);
    }
  }

  lemma SameShapeClimb(fs: Fs, ino: Ino, node: Node, i: Ino)
    requires ParentsAreDirs(fs) && ino in fs && node.parent == fs[ino].parent && i in fs && OnChain(fs, i, ROOT)
    ensures OnChain(fs[ino := node], i, ROOT)
  {
    hide Up;
    var n: nat :| Up(fs, i, n) == ROOT;
    forall k: nat | k < n ensures Up(fs, i, k) in fs { UpStaysInside(fs, i, k); }
    SameClimb(fs, fs[ino := node], i, n);
  }

  lemma ChmodKeepsTree(t: Tree, ino: Ino, mode: nat)
    requires Valid(t)
    ensures Valid(StepChmod(t, ino, mode).0)
  {
    hide Valid;
    if ino in t.fs {
      SameShapeKeepsTree(t, ino, t.fs[ino].(perm := mode % 512));
    }
  }

  /** Every admissible operation keeps one tree. */
  lemma StepKeepsTree(t: Tree, op: Op)
    requires Valid(t) && Admissible(t, op)
    ensures Valid(Step(t, op).0)
  {
    hide Valid, StepMake, StepUnlink, StepRmdir, StepRename, StepChmod;
    match op
    case Create(_, _, _, _) => MakeKeepsTree(t, op);
    case Mkdir(_, _, _) => MakeKeepsTree(t, op);
    case MakeSymlink(_, _, _) => MakeKeepsTree(t, op);
    case Unlink(parent, name) => RemoveKeepsTree(t, parent, name);
    case Rmdir(parent, name) => RemoveKeepsTree(t, parent, name);
    case Rename(parent, name, newParent, newName) => RenameKeepsTree(t, parent, name, newParent, newName);
    case Chmod(ino, mode) => ChmodKeepsTree(t, ino, mode);
  }

  const ROOT_PERM: nat := 493

  /** A volume that has never been saved: the root alone. */
  const FRESH_TREE: Tree := Tree(map[ROOT := Node(ROOT, "", Dir, 0, None, None, ROOT_PERM)], ROOT + 1)

  lemma FreshTreeValid()
    ensures Valid(FRESH_TREE)
  {
    var fs := FRESH_TREE.fs;
    assert Up(fs, ROOT, 0) == ROOT;
    assert ParentIsDir(fs, ROOT);
  }

  ghost function Run(t: Tree, ops: seq<Op>): Tree {
    if ops == [] then t else Step(Run(t, ops[..|ops| - 1]), ops[|ops| - 1]).0
  }

  ghost predicate AdmissibleRun(t: Tree, ops: seq<Op>) {
    forall i | 0 <= i < |ops| :: Admissible(Run(t, ops[..i]), ops[i])
  }

  /** Every run keeps one tree, and its inode counter never goes back. */
  lemma {:induction false} RunKeepsTree(t: Tree, ops: seq<Op>)
    requires Valid(t) && AdmissibleRun(t, ops)
    ensures Valid(Run(t, ops)) && Run(t, ops).next >= t.next
    decreases |ops|
  {
    hide Valid, Step, Admissible;
    if ops != [] {
      var earlier := ops[..|ops| - 1];
      assert forall i | 0 <= i < |earlier| :: earlier[..i] == ops[..i] && earlier[i] == ops[i];
      RunKeepsTree(t, earlier);
      StepKeepsTree(Run(t, earlier), ops[|ops| - 1]);
      StepAllocates(Run(t, earlier), ops[|ops| - 1]);
    }
  }

  /** What operation number `i` of a run replies. */
  ghost function ReplyAt(t: Tree, ops: seq<Op>, i: nat): Reply
    requires i < |ops|
  {
    Step(Run(t, ops[..i]), ops[i]).1
  }

  lemma {:induction false} CounterGrows(t: Tree, ops: seq<Op>, i: nat, j: nat)
    requires i <= j <= |ops|
    ensures Run(t, ops[..i]).next <= Run(t, ops[..j]).next
    decreases j
  {
    hide Step;
    if i < j {
      CounterGrows(t, ops, i, j - 1);
      assert ops[..j][..j - 1] == ops[..j - 1];
      StepAllocates(Run(t, ops[..j - 1]), ops[j - 1]);
    }
  }

  /** No run hands out an inode number twice, even if the first inode is long gone. */
  lemma CreatedAreDistinct(t: Tree, ops: seq<Op>, i: nat, j: nat)
    requires i < j < |ops| && ReplyAt(t, ops, i).Created? && ReplyAt(t, ops, j).Created?
    ensures ReplyAt(t, ops, i).ino < ReplyAt(t, ops, j).ino
  {
    hide Step;
    assert ops[..i + 1][..i] == ops[..i];
    StepAllocates(Run(t, ops[..i]), ops[i]);
    StepAllocates(Run(t, ops[..j]), ops[j]);
    CounterGrows(t, ops, i + 1, j);
  }

  /** An operation adds at most one inode, numbered `next`, and then moves `next` past it. */
  lemma StepAllocates(t: Tree, op: Op)
    ensures var (t', reply) := Step(t, op);
            && t'.next == (if reply.Created? then t.next + 1 else t.next)
            && (reply.Created? ==> reply.ino == t.next)
            && forall i | i in t'.fs :: i in t.fs || (i == t.next && reply.Created?)
  {
    LookupChildOf(t, op);
    hide Lookup, HasChildren, OnChain;
  }

  /** No namespace operation touches the kind, size or key of an inode that survives it. */
  lemma StepKeepsData(t: Tree, op: Op)
    requires t.next !in t.fs
    ensures var (t', reply) := Step(t, op);
            && (reply.Failed? ==> t' == t)
            && (forall i | i in t.fs && i in t'.fs ::
                  t'.fs[i].kind == t.fs[i].kind && t'.fs[i].size == t.fs[i].size && t'.fs[i].key == t.fs[i].key)
            && (reply.Created? ==>
                  t.next in t'.fs && (t'.fs[t.next].kind == File ==>
                    t'.fs[t.next].size == 0 && t'.fs[t.next].key.Some?))
  {
    LookupChildOf(t, op);
    hide Lookup, HasChildren, OnChain;
  }

  lemma LookupChildOf(t: Tree, op: Op)
    ensures op.Rename? && Lookup(t.fs, op.parent, op.name).Some? ==> Lookup(t.fs, op.parent, op.name).value in t.fs
  {
  }

  // ---- What rename means for paths ----

  ghost function Resolve(fs: Fs, from: Ino, path: seq<string>): Option<Ino>
    decreases |path|
  {
    if path == [] then Some(from)
    else match Lookup(fs, from, path[0])
      case None => None
      case Some(i) => Resolve(fs, i, path[1..])
  }

  /** On a tree nothing is below itself. */
  lemma ParentIsNotBelow(fs: Fs, source: Ino)
    requires IsTree(fs) && source in fs && source != ROOT
    ensures !OnChain(fs, fs[source].parent, source)
  {
    var some: nat :| Up(fs, source, some) == ROOT;
    var n := FirstArrival(fs, source, ROOT, some);
    forall k: nat ensures Up(fs, fs[source].parent, k) != source {
      if Up(fs, fs[source].parent, k) == source {
        assert Up(fs, source, k + 1) == source;
        if k + 1 > n {
          UpAdd(fs, source, n, k + 1 - n);
          UpFromRoot(fs, k + 1 - n);
        } else {
          UpAdd(fs, source, k + 1, n - (k + 1));
        }
      }
    }
  }

  lemma SameLookup(fs: Fs, fs': Fs, parent: Ino, name: string)
    requires UniqueNames(fs) && UniqueNames(fs')
    requires forall i :: IsChild(fs, parent, name, i) <==> IsChild(fs', parent, name, i)
    ensures Lookup(fs', parent, name) == Lookup(fs, parent, name)
  {
    LookupChild(fs, parent, name);
    LookupChild(fs', parent, name);
    hide IsChild;
    if Lookup(fs, parent, name).Some? {
      LookupUnique(fs', parent, name, Lookup(fs, parent, name).value);
    }
  }

  /** A successful rename moves one name and leaves every other lookup alone. */
  lemma RenameLookups(t: Tree, parent: Ino, name: string, newParent: Ino, newName: string, p: Ino, n: string)
    requires Valid(t) && StepRename(t, parent, name, newParent, newName).1 == Done
    ensures var fs' := StepRename(t, parent, name, newParent, newName).0.fs;
            Lookup(fs', p, n) ==
              if (p, n) == (newParent, newName) then Lookup(t.fs, parent, name)
              else if (p, n) == (parent, name) then None
              else Lookup(t.fs, p, n)
  {
    var fs, fs' := t.fs, StepRename(t, parent, name, newParent, newName).0.fs;
    RenameKeepsTree(t, parent, name, newParent, newName);
    LookupChild(fs, parent, name);
    LookupChild(fs, newParent, newName);
    var source := Lookup(fs, parent, name).value;
    OnlyChild(fs, parent, name, source);
    assert UniqueNames(fs) && UniqueNames(fs');
    hide UniqueNames, AllReachRoot, ParentsAreDirs, OnChain, HasChildren, Valid;
    if (p, n) == (newParent, newName) {
      LookupUnique(fs', p, n, source);
    } else if (p, n) == (parent, name) {
      LookupChild(fs', p, n);
    } else {
      SameLookup(fs, fs', p, n);
    }
  }

  /** The whole subtree moves: every path below the renamed inode resolves as before. */
  lemma {:induction false} RenameMovesSubtree(t: Tree, parent: Ino, name: string, newParent: Ino, newName: string,
    from: Ino, path: seq<string>)
    requires Valid(t) && StepRename(t, parent, name, newParent, newName).1 == Done
    requires Lookup(t.fs, parent, name).Some? && from in t.fs && OnChain(t.fs, from, Lookup(t.fs, parent, name).value)
    ensures Resolve(StepRename(t, parent, name, newParent, newName).0.fs, from, path) == Resolve(t.fs, from, path)
    decreases |path|
  {
    if path != [] {
      RenameAvoidsSubtree(t, parent, name, newParent, newName, from);
      LookupChild(t.fs, from, path[0]);
      hide OnChain, StepRename, Valid, Lookup;
      RenameLookups(t, parent, name, newParent, newName, from, path[0]);
      match Lookup(t.fs, from, path[0])
      case None =>
      case Some(i) =>
        ChainClosed(t.fs, i, Lookup(t.fs, parent, name).value);
        RenameMovesSubtree(t, parent, name, newParent, newName, i, path[1..]);
    }
  }

  lemma RenameAvoidsSubtree(t: Tree, parent: Ino, name: string, newParent: Ino, newName: string, from: Ino)
    requires Valid(t) && StepRename(t, parent, name, newParent, newName).1 == Done
    requires Lookup(t.fs, parent, name).Some? && OnChain(t.fs, from, Lookup(t.fs, parent, name).value)
    ensures from != parent && from != newParent
  {
    LookupChild(t.fs, parent, name);
    var source := Lookup(t.fs, parent, name).value;
    ParentIsNotBelow(t.fs, source);
    if t.fs[source].kind != Dir { FilesHaveNoDescendants(t.fs, source, newParent); }
  }
}
