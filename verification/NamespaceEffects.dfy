/**
  What each namespace operation does and when it refuses, in terms of lookups, nodes and
  ancestry alone.
 */
module NamespaceEffects {
  import opened Prelude
  import opened Namespace

  /** The two trees differ at `i` at most. */
  ghost predicate SameElsewhere(fs: Fs, fs': Fs, i: Ino) {
    forall k | k != i :: (k in fs' <==> k in fs) && (k in fs ==> fs'[k] == fs[k])
  }

  // ---- Making ----

  /** A new entry under a free name, or EEXIST and no change; every other lookup stays. */
  lemma MakeExact(t: Tree, op: Op)
    requires Valid(t) && Admissible(t, op) && (op.Create? || op.Mkdir? || op.MakeSymlink?)
    ensures var (t', reply) := Step(t, op);
            && (reply == Failed(EEXIST) <==> Lookup(t.fs, op.parent, op.name).Some?)
            && (reply.Failed? ==> reply == Failed(EEXIST) && t' == t)
            && (!reply.Failed? ==>
                  && reply.Created? && reply.ino !in t.fs && reply.ino in t'.fs && SameElsewhere(t.fs, t'.fs, reply.ino)
                  && Lookup(t'.fs, op.parent, op.name) == Some(reply.ino))
  {
    hide Up, OnChain, AllReachRoot, HasChildren;
    MakeKeepsTree(t, op);
    var (t', reply) := Step(t, op);
    if !reply.Failed? {
      hide Lookup;
      LookupUnique(t'.fs, op.parent, op.name, t.next);
    }
  }

  /** The new entry is of the kind asked for and carries what was asked for. */
  lemma MadeAsAsked(t: Tree, op: Op)
    requires Valid(t) && (op.Create? || op.Mkdir? || op.MakeSymlink?) && Step(t, op).1.Created?
    ensures var (t', reply) := Step(t, op);
            && reply.ino in t'.fs
            && var node := t'.fs[reply.ino];
               && node.parent == op.parent && node.name == op.name
               && (op.Create? ==>
                     && node.kind == File && node.size == 0 && node.key == Some(op.key) && node.target.None?
                     && node.perm == op.mode % 512)
               && (op.Mkdir? ==>
                     && node.kind == Dir && node.key.None? && node.target.None? && node.perm == op.mode % 512)
               && (op.MakeSymlink? ==>
                     && node.kind == Symlink && node.target == Some(op.target) && node.size == Utf8Len(op.target)
                     && node.perm == 0x1FF)
  {
    hide Lookup, IsTree;
  }

  lemma MakeLookups(t: Tree, op: Op, p: Ino, n: string)
    requires Valid(t) && Admissible(t, op) && (op.Create? || op.Mkdir? || op.MakeSymlink?) && Step(t, op).1.Created?
    requires (p, n) != (op.parent, op.name)
    ensures Lookup(Step(t, op).0.fs, p, n) == Lookup(t.fs, p, n)
  {
    MakeKeepsTree(t, op);
    MadeAsAsked(t, op);
    MakeExact(t, op);
    hide Up, OnChain, AllReachRoot, HasChildren, Lookup, ParentsAreDirs;
    SameLookup(t.fs, Step(t, op).0.fs, p, n);
  }

  /** A new directory can be used: anything can be made in it under any name. */
  lemma NewDirectoryIsUsable(t: Tree, parent: Ino, name: string, mode: nat, inside: Op)
    requires Valid(t) && Admissible(t, Mkdir(parent, name, mode)) && Step(t, Mkdir(parent, name, mode)).1.Created?
    requires (inside.Create? || inside.Mkdir? || inside.MakeSymlink?)
    requires inside.parent == Step(t, Mkdir(parent, name, mode)).1.ino
    ensures var t' := Step(t, Mkdir(parent, name, mode)).0; Admissible(t', inside) && Step(t', inside).1.Created?
  {
    var op := Mkdir(parent, name, mode);
    MadeAsAsked(t, op);
    MakeExact(t, op);
    var (t', reply) := Step(t, op);
    hide Up, OnChain, AllReachRoot, HasChildren;
    LookupChild(t'.fs, inside.parent, inside.name);
    forall i ensures !IsChild(t'.fs, inside.parent, inside.name, i) {
      if i in t.fs { assert ParentIsDir(t.fs, i); }
    }
  }

  // ---- Removing ----

  /** The name finds nothing any more, and every other lookup finds what it found. */
  ghost predicate OnlyNameGone(fs: Fs, fs': Fs, parent: Ino, name: string) {
    forall p: Ino, n: string ::
      Lookup(fs', p, n) == if p == parent && n == name then None else Lookup(fs, p, n)
  }

  lemma RemovedLookups(fs: Fs, i: Ino, parent: Ino, name: string)
    requires UniqueNames(fs) && IsChild(fs, parent, name, i)
    ensures OnlyNameGone(fs, fs - {i}, parent, name)
  {
    OnlyChild(fs, parent, name, i);
    forall p: Ino, n: string
      ensures Lookup(fs - {i}, p, n) == if p == parent && n == name then None else Lookup(fs, p, n)
    {
      if p == parent && n == name {
        LookupChild(fs - {i}, p, n);
      } else {
        SameLookup(fs, fs - {i}, p, n);
      }
    }
  }

  /** Unlink removes the one entry the name finds, unless it is a directory. */
  lemma UnlinkExact(t: Tree, parent: Ino, name: string)
    requires Valid(t)
    ensures var (t', reply) := Step(t, Unlink(parent, name));
            var found := Lookup(t.fs, parent, name);
            && (found.Some? ==> found.value in t.fs)
            && (reply == Failed(ENOENT) <==> found.None?)
            && (reply == Failed(EISDIR) <==> found.Some? && t.fs[found.value].kind == Dir)
            && (reply == Done <==> found.Some? && t.fs[found.value].kind != Dir)
            && (reply != Done ==> t' == t)
            && (reply == Done ==>
                  && found.value !in t'.fs && SameElsewhere(t.fs, t'.fs, found.value) && t'.next == t.next
                  && OnlyNameGone(t.fs, t'.fs, parent, name))
  {
    hide Up, OnChain, AllReachRoot, HasChildren, ParentsAreDirs;
    LookupChild(t.fs, parent, name);
    var found := Lookup(t.fs, parent, name);
    if found.Some? { RemovedLookups(t.fs, found.value, parent, name); }
    hide Lookup, UniqueNames, OnlyNameGone;
  }

  /** Rmdir removes the one entry the name finds, if it is a directory without children. */
  lemma RmdirExact(t: Tree, parent: Ino, name: string)
    requires Valid(t)
    ensures var (t', reply) := Step(t, Rmdir(parent, name));
            var found := Lookup(t.fs, parent, name);
            && (found.Some? ==> found.value in t.fs)
            && (reply == Failed(ENOENT) <==> found.None?)
            && (reply == Failed(ENOTDIR) <==> found.Some? && t.fs[found.value].kind != Dir)
            && (reply == Failed(ENOTEMPTY) <==>
                  found.Some? && t.fs[found.value].kind == Dir && HasChildren(t.fs, found.value))
            && (reply == Done <==> found.Some? && t.fs[found.value].kind == Dir && !HasChildren(t.fs, found.value))
            && (reply != Done ==> t' == t)
            && (reply == Done ==>
                  && found.value !in t'.fs && SameElsewhere(t.fs, t'.fs, found.value) && t'.next == t.next
                  && OnlyNameGone(t.fs, t'.fs, parent, name))
  {
    hide Up, OnChain, AllReachRoot, HasChildren, ParentsAreDirs;
    LookupChild(t.fs, parent, name);
    var found := Lookup(t.fs, parent, name);
    if found.Some? { RemovedLookups(t.fs, found.value, parent, name); }
    hide Lookup, UniqueNames, OnlyNameGone;
  }

  // ---- Renaming ----

  /** The source exists, the new parent is a directory, and the source is not moved below itself. */
  ghost predicate Movable(t: Tree, source: Option<Ino>, newParent: Ino) {
    && source.Some? && source.value in t.fs && newParent in t.fs && t.fs[newParent].kind == Dir
    && !(t.fs[source.value].kind == Dir && OnChain(t.fs, newParent, source.value))
  }

  /** Another entry has the new name. */
  ghost predicate Replaces(t: Tree, source: Option<Ino>, target: Option<Ino>) {
    source.Some? && target.Some? && target != source && source.value in t.fs && target.value in t.fs
  }

  /** Which answer a rename gives, exactly when. */
  lemma RenameReplies(t: Tree, parent: Ino, name: string, newParent: Ino, newName: string)
    requires Valid(t)
    ensures var (t', reply) := Step(t, Rename(parent, name, newParent, newName));
            var source, target := Lookup(t.fs, parent, name), Lookup(t.fs, newParent, newName);
            && (source.Some? ==> source.value in t.fs) && (target.Some? ==> target.value in t.fs)
            && (reply == Failed(ENOENT) <==> source.None? || newParent !in t.fs)
            && (reply == Failed(EINVAL) <==>
                  && source.Some? && newParent in t.fs && t.fs[newParent].kind == Dir
                  && t.fs[source.value].kind == Dir && OnChain(t.fs, newParent, source.value))
            && (reply == Failed(ENOTDIR) <==>
                  || (source.Some? && newParent in t.fs && t.fs[newParent].kind != Dir)
                  || (&& Movable(t, source, newParent) && Replaces(t, source, target)
                      && t.fs[source.value].kind == Dir && t.fs[target.value].kind != Dir))
            && (reply == Failed(EISDIR) <==>
                  && Movable(t, source, newParent) && Replaces(t, source, target)
                  && t.fs[source.value].kind != Dir && t.fs[target.value].kind == Dir)
            && (reply == Failed(ENOTEMPTY) <==>
                  && Movable(t, source, newParent) && Replaces(t, source, target)
                  && t.fs[source.value].kind == Dir && t.fs[target.value].kind == Dir &&
                    HasChildren(t.fs, target.value))
            && (reply.Failed? ==> t' == t && reply.errno != EEXIST)
            && !reply.Created?
  {
    LookupChild(t.fs, parent, name);
    LookupChild(t.fs, newParent, newName);
    hide Up, OnChain, HasChildren, Lookup, IsTree;
  }

  /** A rename that succeeds moves the source and removes the entry it replaces, and nothing else. */
  lemma RenameEffect(t: Tree, parent: Ino, name: string, newParent: Ino, newName: string)
    requires Valid(t) && Step(t, Rename(parent, name, newParent, newName)).1 == Done
    ensures var t' := Step(t, Rename(parent, name, newParent, newName)).0;
            var source, target := Lookup(t.fs, parent, name), Lookup(t.fs, newParent, newName);
            && source.Some? && source.value in t.fs && source.value in t'.fs && t'.next == t.next
            && t'.fs[source.value] == t.fs[source.value].(parent := newParent, name := newName)
            && (Replaces(t, source, target) ==>
                  && target.value !in t'.fs && !HasChildren(t.fs, target.value)
                  && (t.fs[target.value].kind == Dir <==> t.fs[source.value].kind == Dir))
            && forall k | k != source.value && !(Replaces(t, source, target) && k == target.value) ::
                 (k in t'.fs <==> k in t.fs) && (k in t.fs ==> t'.fs[k] == t.fs[k])
  {
    LookupChild(t.fs, parent, name);
    LookupChild(t.fs, newParent, newName);
    var target := Lookup(t.fs, newParent, newName);
    if target.Some? && t.fs[target.value].kind != Dir { FilesAreLeaves(t.fs, target.value); }
    hide Up, OnChain, HasChildren, Lookup, IsTree;
  }

  // ---- Changing the mode ----

  lemma ChmodExact(t: Tree, ino: Ino, mode: nat)
    ensures var (t', reply) := Step(t, Chmod(ino, mode));
            && (reply == Failed(ENOENT) <==> ino !in t.fs) && (reply == Done <==> ino in t.fs)
            && (reply != Done ==> t' == t)
            && (reply == Done ==>
                  && ino in t'.fs && t'.next == t.next && SameElsewhere(t.fs, t'.fs, ino)
                  && t'.fs[ino].perm == mode % 0x200 && t'.fs[ino] == t.fs[ino].(perm := t'.fs[ino].perm))
  {
  }
}
