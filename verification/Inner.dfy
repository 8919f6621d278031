/**
  `PqfsInner`: the in-memory metadata with its two derived indexes and its dirty flag,
  over a backend directory. Each operation is proved to be the operation of `Namespace`
  on the tree the entries mean.
 */
module Inner {
  import opened Prelude
  import opened SymbolicCrypto
  import opened Namespace
  import opened IndexModel
  import opened Listing

  /** Reloading this index file gives this tree; a missing file gives the bare root. */
  ghost predicate Reloads(c: Crypto, index: Blob<Entries>, entries: Entries) {
    if index.Empty? then ViewOf(c, entries) == FRESH_TREE.fs else Decrypt(c, index) == Some(entries)
  }

  class PqfsInner {
    var entries: Entries
    var nextIno: Ino
    var children: Children
    var byParent: ByParent
    var dirty: bool
    /** The backend: the index file (`Empty` when missing) and the names in `data/`. */
    var index: Blob<Entries>
    var dataFiles: set<Ino>

    /** The fields as `load` sets them, before the indexes are rebuilt. */
    constructor (entries: Entries, nextIno: Ino, index: Blob<Entries>, dataFiles: set<Ino>)
      ensures this.entries == entries && this.nextIno == nextIno && !dirty
      ensures this.index == index && this.dataFiles == dataFiles
    {
      this.entries, this.nextIno, this.index, this.dataFiles := entries, nextIno, index, dataFiles;
      children, byParent, dirty := map[], map[], false;
    }

    ghost function View(c: Crypto): Fs
      reads this
    {
      ViewOf(c, entries)
    }

    ghost function Meaning(c: Crypto): Tree
      reads this
    {
      Tree(ViewOf(c, entries), nextIno)
    }

    /** Tree, indexes and names are right, and a clear dirty flag means the disk agrees. */
    ghost predicate Valid(c: Crypto)
      reads this
    {
      && Good(c, entries, children, byParent, nextIno)
      && (!dirty ==> Reloads(c, index, entries))
    }

    // ---- inner.rs ----

    method Link(ino: Ino, parent: Ino, nameHash: nat)
      modifies this`children, this`byParent
      ensures children == old(children)[(parent, nameHash) := ino]
      ensures byParent == LinkKids(old(byParent), ino, parent)
    {
      children := children[(parent, nameHash) := ino];
      byParent := byParent[parent := Kids(byParent, parent) + {ino}];
    }

    method UnlinkIndex(ino: Ino, parent: Ino, nameHash: nat)
      modifies this`children, this`byParent
      ensures children == UnlinkChildren(old(children), ino, (parent, nameHash))
      ensures byParent == UnlinkKids(old(byParent), ino, parent)
    {
      if (parent, nameHash) in children && children[(parent, nameHash)] == ino {
        children := children - {(parent, nameHash)};
      }
      if parent in byParent {
        var kids := byParent[parent] - {ino};
        if kids == {} {
          byParent := byParent - {parent};
        } else {
          byParent := byParent[parent := kids];
        }
      }
    }

    method InsertEntry(entry: Entry)
      modifies this`entries, this`children, this`byParent
      ensures entries == old(entries)[entry.ino := entry]
      ensures entry.ino !in old(entries) && entry.ino != ROOT ==>
        children == old(children)[SlotOf(entry) := entry.ino] &&
          byParent == LinkKids(old(byParent), entry.ino, entry.parent)
      ensures entry.ino !in old(entries) && entry.ino == ROOT ==> children == old(children) && byParent == old(byParent)
      ensures entry.ino in old(entries) ==>
        var previous := old(entries)[entry.ino];
        var unlinked := UnlinkChildren(old(children), entry.ino, SlotOf(previous));
        var orphaned := UnlinkKids(old(byParent), entry.ino, previous.parent);
        && children == (if entry.ino == ROOT then unlinked else unlinked[SlotOf(entry) := entry.ino])
        && byParent == (if entry.ino == ROOT then orphaned else LinkKids(orphaned, entry.ino, entry.parent))
    {
      if entry.ino in entries {
        var previous := entries[entry.ino];
        UnlinkIndex(entry.ino, previous.parent, previous.nameHash);
      }
      if entry.ino != ROOT {
        Link(entry.ino, entry.parent, entry.nameHash);
      }
      entries := entries[entry.ino := entry];
    }

    method RemoveEntry(ino: Ino) returns (r: Option<Entry>)
      modifies this`entries, this`children, this`byParent
      ensures ino !in old(entries) ==>
        r == None && entries == old(entries) && children == old(children) && byParent == old(byParent)
      ensures ino in old(entries) ==>
        && r == Some(old(entries)[ino])
        && entries == old(entries) - {ino}
        && children == UnlinkChildren(old(children), ino, SlotOf(old(entries)[ino]))
        && byParent == UnlinkKids(old(byParent), ino, old(entries)[ino].parent)
    {
      if ino !in entries {
        return None;
      }
      var entry := entries[ino];
      entries := entries - {ino};
      UnlinkIndex(ino, entry.parent, entry.nameHash);
      r := Some(entry);
    }

    method Relink(ino: Ino, newParent: Ino, newNameHash: nat, newNameEncrypted: Blob<string>)
      modifies this`entries, this`children, this`byParent
      ensures ino !in old(entries) ==> entries == old(entries) && children == old(children) && byParent == old(byParent)
      ensures ino in old(entries) ==>
        && entries == old(entries)[ino := IndexModel.Relinked(old(entries)[ino], newParent, newNameHash,
          newNameEncrypted)]
        && children == UnlinkChildren(old(children), ino, SlotOf(old(entries)[ino]))[(newParent, newNameHash) := ino]
        && byParent == LinkKids(UnlinkKids(old(byParent), ino, old(entries)[ino].parent), ino, newParent)
    {
      if ino !in entries {
        return;
      }
      var entry := entries[ino];
      UnlinkIndex(ino, entry.parent, entry.nameHash);
      entries := entries[ino := entry.(parent := newParent, nameHash := newNameHash, nameEncrypted :=
        newNameEncrypted)];
      Link(ino, newParent, newNameHash);
    }

    /** The hashed lookup is the search by parent and decrypted name. */
    method FindChild(c: Crypto, parent: Ino, name: string) returns (r: Option<Entry>)
      requires EntriesOk(c, entries) && ChildrenExact(entries, children)
      ensures Lookup(View(c), parent, name) == if r.Some? then Some(r.value.ino) else None
      ensures r == FindIn(c, entries, children, parent, name)
      ensures r.Some? ==>
        r.value.ino in entries && entries[r.value.ino] == r.value && IsChild(View(c), parent, name, r.value.ino)
    {
      FindIsLookup(c, entries, children, parent, name);
      LookupChild(View(c), parent, name);
      var hash := c.hmac(name);
      if (parent, hash) !in children || children[(parent, hash)] !in entries {
        return None;
      }
      var entry := entries[children[(parent, hash)]];
      if DecryptName(c, entry.nameEncrypted) == Some(name) {
        return Some(entry);
      }
      return None;
    }

    method HasChildrenOf(c: Crypto, parent: Ino) returns (r: bool)
      requires ByParentExact(entries, byParent)
      ensures r <==> HasChildren(View(c), parent)
    {
      KidsAreChildren(c, entries, byParent, parent);
      r := parent in byParent && byParent[parent] != {};
    }

    /** Whatever was below the counter is below the new number, and all of it below the counter. */
    method AllocateIno() returns (ino: Ino)
      modifies this`nextIno
      ensures ino == old(nextIno) && nextIno == old(nextIno) + 1
      ensures (forall i | i in entries :: i < old(nextIno)) ==> forall i | i in entries :: i < ino < nextIno
    {
      ino := nextIno;
      nextIno := nextIno + 1;
    }

    /** Serialize, seal, rename into place and sync; only then is the state clean. */
    method SaveIndex(c: Crypto)
      modifies this`index, this`dirty
      ensures !dirty && Reloads(c, index, entries)
      ensures index.Sealed? && Decrypt(c, index) == Some(entries)
    {
      var nonce: nat := *;
      index := Encrypt(c, nonce, entries);
      dirty := false;
    }

    method FlushIndex(c: Crypto)
      requires Valid(c)
      modifies this`index, this`dirty
      ensures Valid(c) && !dirty && Reloads(c, index, entries)
      ensures !old(dirty) ==> index == old(index)
      ensures old(dirty) ==> index.Sealed? && Decrypt(c, index) == Some(entries)
    {
      if dirty {
        SaveIndex(c);
      }
    }

    // ---- ops.rs: making entries ----

    method InsertNew(c: Crypto, e: Entry, ghost op: Op)
      requires Good(c, entries, children, byParent, e.ino) && nextIno == e.ino + 1
      requires op.Create? || op.Mkdir? || op.MakeSymlink?
      requires Admissible(Tree(View(c), e.ino), op)
      requires e.nameHash == c.hmac(op.name) && Readable(c, e) && NodeOf(c, e) == NewNode(op)
      requires FindIn(c, entries, children, op.parent, op.name).None? && NoClash(c, View(c), op.parent, op.name)
      modifies this`entries, this`children, this`byParent, this`index, this`dirty
      ensures Valid(c) && !dirty
      ensures (Meaning(c), Created(e.ino)) == Step(Tree(old(View(c)), e.ino), op)
    {
      hide Good, Readable, NodeOf, NewNode, FindIn, NoClash, Admissible, Step;
      GoodFacts(c, entries, children, byParent, e.ino);
      InsertGood(c, entries, children, byParent, e.ino, op, e);
      InsertEntry(e);
      SaveIndex(c);
    }

    method Create(c: Crypto, parent: Ino, name: string, mode: nat, key: Key) returns (reply: Reply)
      requires Valid(c) && Admissible(Meaning(c), Namespace.Create(parent, name, mode, key)) &&
        NoClash(c, View(c), parent, name)
      modifies this
      ensures Valid(c)
      ensures (Meaning(c), reply) == Step(old(Meaning(c)), Namespace.Create(parent, name, mode, key))
      ensures dataFiles == old(dataFiles)
    {
      hide NoClash, IndexExact, Namespace.Valid, EntriesOk;
      ghost var op := Namespace.Create(parent, name, mode, key);
      GoodFacts(c, entries, children, byParent, nextIno);
      var found := FindChild(c, parent, name);
      if found.Some? {
        return Failed(EEXIST);
      }
      var ino := AllocateIno();
      var nameNonce: nat := *;
      var keyNonce: nat := *;
      var entry := Entry(ino, parent, c.hmac(name), EncryptName(c, nameNonce, name), Encrypt(c, keyNonce, key), File, 0,
        mode % 512, Empty);
      InsertNew(c, entry, op);
      reply := Created(ino);
    }

    method Mkdir(c: Crypto, parent: Ino, name: string, mode: nat) returns (reply: Reply)
      requires Valid(c) && Admissible(Meaning(c), Namespace.Mkdir(parent, name, mode)) &&
        NoClash(c, View(c), parent, name)
      modifies this
      ensures Valid(c)
      ensures (Meaning(c), reply) == Step(old(Meaning(c)), Namespace.Mkdir(parent, name, mode))
      ensures dataFiles == old(dataFiles)
    {
      hide NoClash, IndexExact, Namespace.Valid, EntriesOk;
      GoodFacts(c, entries, children, byParent, nextIno);
      var found := FindChild(c, parent, name);
      if found.Some? {
        return Failed(EEXIST);
      }
      var ino := AllocateIno();
      var nonce: nat := *;
      var entry := Entry(ino, parent, c.hmac(name), EncryptName(c, nonce, name), Empty, Dir, 0, mode % 512, Empty);
      InsertNew(c, entry, Namespace.Mkdir(parent, name, mode));
      reply := Created(ino);
    }

    method MakeSymlink(c: Crypto, parent: Ino, name: string, target: string) returns (reply: Reply)
      requires Valid(c) && Admissible(Meaning(c), Namespace.MakeSymlink(parent, name, target)) &&
        NoClash(c, View(c), parent, name)
      modifies this
      ensures Valid(c)
      ensures (Meaning(c), reply) == Step(old(Meaning(c)), Namespace.MakeSymlink(parent, name, target))
      ensures dataFiles == old(dataFiles)
    {
      hide NoClash, IndexExact, Namespace.Valid, EntriesOk;
      GoodFacts(c, entries, children, byParent, nextIno);
      var found := FindChild(c, parent, name);
      if found.Some? {
        return Failed(EEXIST);
      }
      var targetNonce: nat := *;
      var linkTarget := EncryptName(c, targetNonce, target);
      var ino := AllocateIno();
      var nonce: nat := *;
      var entry := Entry(ino, parent, c.hmac(name), EncryptName(c, nonce, name), Empty, Symlink, Utf8Len(target), 511,
        linkTarget);
      InsertNew(c, entry, Namespace.MakeSymlink(parent, name, target));
      reply := Created(ino);
    }

    // ---- ops.rs: removing entries ----

    method Unlink(c: Crypto, parent: Ino, name: string) returns (reply: Reply)
      requires Valid(c)
      modifies this
      ensures Valid(c)
      ensures (Meaning(c), reply) == Step(old(Meaning(c)), Namespace.Unlink(parent, name))
      ensures dataFiles == old(dataFiles) - (old(entries).Keys - entries.Keys)
    {
      hide IndexExact, Namespace.Valid, EntriesOk, HasChildren;
      GoodFacts(c, entries, children, byParent, nextIno);
      var found := FindChild(c, parent, name);
      if found.None? {
        return Failed(ENOENT);
      }
      var entry := found.value;
      if entry.kind == Dir {
        return Failed(EISDIR);
      }
      TreeOf(c, entries, nextIno);
      FilesAreLeaves(View(c), entry.ino);
      RemoveGood(c, entries, children, byParent, nextIno, entry.ino);
      var _ := RemoveEntry(entry.ino);
      dataFiles := dataFiles - {entry.ino};
      SaveIndex(c);
      reply := Done;
    }

    method Rmdir(c: Crypto, parent: Ino, name: string) returns (reply: Reply)
      requires Valid(c)
      modifies this
      ensures Valid(c)
      ensures (Meaning(c), reply) == Step(old(Meaning(c)), Namespace.Rmdir(parent, name))
      ensures dataFiles == old(dataFiles)
    {
      hide IndexExact, Namespace.Valid, EntriesOk, HasChildren;
      GoodFacts(c, entries, children, byParent, nextIno);
      var found := FindChild(c, parent, name);
      if found.None? {
        return Failed(ENOENT);
      }
      var entry := found.value;
      if entry.kind != Dir {
        return Failed(ENOTDIR);
      }
      var occupied := HasChildrenOf(c, entry.ino);
      if occupied {
        return Failed(ENOTEMPTY);
      }
      RemoveGood(c, entries, children, byParent, nextIno, entry.ino);
      var _ := RemoveEntry(entry.ino);
      SaveIndex(c);
      reply := Done;
    }

    // ---- ops.rs: rename ----

    /**
      The hop-bounded walk is exact on every tree: the bound is never what ends it, and
      it answers whether `ancestor` is on the reflexive parent chain.
     */
    method IsDescendantOf(c: Crypto, start: Ino, ancestor: Ino) returns (r: bool)
      requires ParentsAreDirs(View(c)) && AllReachRoot(View(c))
      ensures r <==> OnChain(View(c), start, ancestor)
    {
      ghost var fs := View(c);
      hide Up;
      var ino := start;
      var hops := 0;
      UpZero(fs, start);
      while ino != ROOT && hops < |entries| + 1
        invariant 0 <= hops <= |entries| + 1
        invariant ino == Up(fs, start, hops)
        invariant start in fs || hops == 0
        invariant forall k: nat | k < hops :: Up(fs, start, k) != ancestor && Up(fs, start, k) != ROOT
        decreases |entries| + 1 - hops
      {
        if start in fs { UpStaysInside(fs, start, hops); }
        if ino == ancestor {
          return true;
        }
        if ino !in entries {
          WalkLeft(fs, start, ancestor);
          return false;
        }
        UpAdd(fs, start, hops, 1);
        UpOne(fs, ino);
        ino := entries[ino].parent;
        hops := hops + 1;
      }
      WalkEnded(c, entries, start, ancestor, hops);
      return ino == ancestor;
    }

    method RelinkAndSave(c: Crypto, source: Ino, newParent: Ino, newName: string)
      requires Good(c, entries, children, byParent, nextIno) && source in entries && source != ROOT
      requires NoClash(c, View(c), newParent, newName)
      requires forall j :: IsChild(View(c), newParent, newName, j) ==> j == source
      requires Namespace.Valid(Tree(Moved(View(c), source, newParent, newName), nextIno))
      modifies this`entries, this`children, this`byParent, this`index, this`dirty
      ensures Valid(c) && !dirty && View(c) == Moved(old(View(c)), source, newParent, newName)
      ensures entries.Keys == old(entries).Keys
    {
      hide NoClash, IndexExact, Namespace.Valid, EntriesOk, NodeOf;
      var hash := c.hmac(newName);
      var nonce: nat := *;
      var sealed := EncryptName(c, nonce, newName);
      MoveGood(c, entries, children, byParent, nextIno, source, newParent, newName, nonce);
      Relink(source, newParent, hash, sealed);
      SaveIndex(c);
    }

    /** The checks of `rename`, in its order: what moves and what it replaces, or why not. */
    method PlanRename(c: Crypto, parent: Ino, name: string, newParent: Ino, newName: string)
      returns (r: Result<(Ino, Option<Ino>), Errno>)
      requires Valid(c)
      ensures r.Err? ==> StepRename(Meaning(c), parent, name, newParent, newName) == (Meaning(c), Failed(r.error))
      ensures r.Ok? ==> Planned(Meaning(c), parent, name, newParent, newName, r.value.0, r.value.1)
    {
      hide IndexExact, Namespace.Valid, EntriesOk, HasChildren, OnChain, NodeOf, Lookup, ViewOf, Planned;
      ghost var t := Meaning(c);
      GoodFacts(c, entries, children, byParent, nextIno);
      TreeOf(c, entries, nextIno);
      LookupChild(t.fs, newParent, newName);
      ViewKinds(c, entries);
      var found := FindChild(c, parent, name);
      if found.None? {
        return Err(ENOENT);
      }
      var source := found.value;
      if newParent !in entries {
        return Err(ENOENT);
      }
      if entries[newParent].kind != Dir {
        return Err(ENOTDIR);
      }
      if source.kind == Dir {
        var below := IsDescendantOf(c, newParent, source.ino);
        if below {
          return Err(EINVAL);
        }
      }
      var occupant := FindChild(c, newParent, newName);
      if occupant.Some? && occupant.value.ino != source.ino {
        var existing := occupant.value;
        match (source.kind == Dir, existing.kind == Dir) {
          case (true, true) =>
            var occupied := HasChildrenOf(c, existing.ino);
            if occupied {
              return Err(ENOTEMPTY);
            }
          case (true, false) =>
            return Err(ENOTDIR);
          case (false, true) =>
            return Err(EISDIR);
          case (false, false) =>
            FilesAreLeaves(t.fs, existing.ino);
        }
        PlanReplaces(t, parent, name, newParent, newName, source.ino, existing.ino);
        return Ok((source.ino, Some(existing.ino)));
      }
      PlanMoves(t, parent, name, newParent, newName, source.ino);
      r := Ok((source.ino, None));
    }

    method Rename(c: Crypto, parent: Ino, name: string, newParent: Ino, newName: string) returns (reply: Reply)
      requires Valid(c) && NoClash(c, View(c), newParent, newName)
      modifies this
      ensures Valid(c)
      ensures (Meaning(c), reply) == Step(old(Meaning(c)), Namespace.Rename(parent, name, newParent, newName))
      ensures dataFiles == old(dataFiles) - (old(entries).Keys - entries.Keys)
    {
      hide NoClash, IndexExact, Namespace.Valid, EntriesOk, HasChildren, NodeOf, StepRename, ViewOf;
      ghost var t := Meaning(c);
      TreeOf(c, entries, nextIno);
      RenameKeepsTree(t, parent, name, newParent, newName);
      ViewKinds(c, entries);
      var plan := PlanRename(c, parent, name, newParent, newName);
      if plan.Err? {
        return Failed(plan.error);
      }
      var (source, replaced) := plan.value;
      if replaced.Some? {
        RemoveGood(c, entries, children, byParent, nextIno, replaced.value);
        RemovalKeepsNames(c, t.fs, replaced.value, newParent, newName);
        var _ := RemoveEntry(replaced.value);
        dataFiles := dataFiles - {replaced.value};
      }
      RelinkAndSave(c, source, newParent, newName);
      reply := Done;
    }

    // ---- ops.rs: attributes ----

    method CommitWrite(c: Crypto, ino: Ino, contentKey: Blob<Key>, size: nat)
      requires Valid(c) && Decrypt(c, contentKey).Some?
      modifies this`entries, this`dirty
      ensures Valid(c)
      ensures ino !in old(entries) ==> entries == old(entries) && dirty == old(dirty)
      ensures ino in old(entries) ==>
        dirty && View(c) == old(View(c))[ino := old(View(c))[ino].(key := Decrypt(c, contentKey), size := size)]
    {
      if ino in entries {
        var e := entries[ino].(contentKey := contentKey, size := size);
        AttributesGood(c, entries, children, byParent, nextIno, e);
        hide Good;
        entries := entries[ino := e];
        dirty := true;
      }
    }

    method ApplySetattr(c: Crypto, ino: Ino, mode: Option<nat>, truncated: Option<(Blob<Key>, nat)>)
      returns (reply: Reply)
      requires Valid(c) && (truncated.Some? ==> Decrypt(c, truncated.value.0).Some?)
      modifies this`entries, this`dirty, this`index
      ensures Valid(c)
      ensures ino !in old(entries) ==>
        reply == Failed(ENOENT) && entries == old(entries) && dirty == old(dirty) && index == old(index)
      ensures ino in old(entries) ==>
        && reply == Done && !dirty
        && var was := old(View(c))[ino];
           var chmod := if mode.Some? then was.(perm := mode.value % 512) else was;
           View(c) == old(View(c))[ino := if truncated.Some?
             then chmod.(key := Decrypt(c, truncated.value.0), size := truncated.value.1) else chmod]
    {
      if ino !in entries {
        return Failed(ENOENT);
      }
      var e := entries[ino];
      if mode.Some? {
        e := e.(perm := mode.value % 512);
      }
      if truncated.Some? {
        e := e.(contentKey := truncated.value.0, size := truncated.value.1);
      }
      AttributesGood(c, entries, children, byParent, nextIno, e);
      hide Good;
      entries := entries[ino := e];
      SaveIndex(c);
      reply := Done;
    }

    // ---- inner.rs: rebuilding the indexes ----

    /** Relinks every entry but the root in inode order; a later one takes over a shared slot. */
    method RebuildIndexes()
      modifies this`children, this`byParent
      ensures LastWins(entries, children) && ByParentExact(entries, byParent)
      ensures UniqueSlots(entries) ==> IndexExact(entries, children, byParent)
    {
      hide RebuiltFrom, LastWins, IndexExact, ByParentExact, UniqueSlots, Ascending;
      children := map[];
      byParent := map[];
      RebuildStart(entries);
      var inos := ToAscending(entries.Keys - {ROOT});
      AscendingListsEach(entries.Keys - {ROOT});
      var n := 0;
      while n < |inos|
        invariant 0 <= n <= |inos|
        invariant RebuiltFrom(entries, inos[..n], children, byParent)
      {
        assert inos[n] in inos;
        var e := entries[inos[n]];
        assert inos[..n + 1] == inos[..n] + [inos[n]];
        forall i | i in inos[..n] ensures i < inos[n] { }
        RebuildStep(entries, inos[..n], inos[n], children, byParent);
        Link(inos[n], e.parent, e.nameHash);
        n := n + 1;
      }
      assert inos[..|inos|] == inos;
      RebuildDone(entries, inos, children, byParent);
    }

    // ---- ops.rs: readdir ----

    /** Everything in a directory: the dot entries, then the children in inode order. */
    method CollectListing(c: Crypto, ino: Ino) returns (all: seq<DirEntry>)
      requires Valid(c) && ino in entries
      ensures all == DirListing(View(c), ino)
    {
      hide Good, Reloads, DirListing;
      all := [DirEntry(ino, Dir, "."), DirEntry(entries[ino].parent, Dir, "..")];
      var inos := ToAscending(Kids(byParent, ino));
      ListingFacts(c, entries, children, byParent, nextIno, ino);
      AscendingListsEach(Kids(byParent, ino));
      hide Kids, Ascending;
      var n := 0;
      while n < |inos|
        invariant 0 <= n <= |inos|
        invariant |all| == n + 2
        invariant all[0] == DirEntry(ino, Dir, ".") && all[1] == DirEntry(entries[ino].parent, Dir, "..")
        invariant forall k | 2 <= k < n + 2 :: inos[k - 2] in entries && all[k] == DirEntryOf(View(c), inos[k - 2])
      {
        assert inos[n] in inos;
        var child := entries[inos[n]];
        all := all + [DirEntry(child.ino, child.kind, NameOf(c, child))];
        n := n + 1;
      }
      ListingIs(View(c), ino, all);
    }

    /**
      One page of the listing from `offset`, each entry with the offset to resume at;
      `capacity` is how many entries the reply takes.
     */
    method Readdir(c: Crypto, ino: Ino, offset: nat, capacity: nat) returns (r: Result<seq<(DirEntry, nat)>, Errno>)
      requires Valid(c)
      ensures r == if ino !in entries then Err(ENOENT)
                   else if entries[ino].kind != Dir then Err(ENOTDIR)
                   else Ok(Page(DirListing(View(c), ino), offset, capacity))
    {
      hide Valid, DirListing;
      if ino !in entries {
        return Err(ENOENT);
      }
      if entries[ino].kind != Dir {
        return Err(ENOTDIR);
      }
      var all := CollectListing(c, ino);
      var page: seq<(DirEntry, nat)> := [];
      var at := offset;
      while at < |all| && |page| < capacity
        invariant |page| <= capacity
        invariant offset <= at && (offset <= |all| ==> at <= |all|)
        invariant |page| == at - offset && (offset > |all| ==> page == [])
        invariant forall k | 0 <= k < |page| :: offset + k < |all| && page[k] == (all[offset + k], offset + k + 1)
      {
        page := page + [(all[at], at + 1)];
        at := at + 1;
      }
      ghost var expected := Page(all, offset, capacity);
      assert |page| == |expected| && forall k | 0 <= k < |page| :: page[k] == expected[k];
      assert page == expected;
      r := Ok(page);
    }
  }

  // ---- Directory listings ----

  datatype DirEntry = DirEntry(ino: Ino, kind: Kind, name: string)

  function DirEntryOf(fs: Fs, i: Ino): DirEntry
    requires i in fs
  {
    DirEntry(i, fs[i].kind, fs[i].name)
  }

  ghost function ChildInos(fs: Fs, p: Ino): set<Ino> {
    set i | i in fs && i != ROOT && fs[i].parent == p
  }

  ghost function DirListing(fs: Fs, ino: Ino): seq<DirEntry>
    requires ino in fs
  {
    AscendingListsEach(ChildInos(fs, ino));
    var kids := Ascending(ChildInos(fs, ino));
    [DirEntry(ino, Dir, "."), DirEntry(fs[ino].parent, Dir, "..")]
    + seq(|kids|, k requires 0 <= k < |kids| => assert kids[k] in kids; DirEntryOf(fs, kids[k]))
  }

  /** The listing, entry by entry. */
  lemma ListingIs(fs: Fs, ino: Ino, l: seq<DirEntry>)
    requires ino in fs
    ensures var kids := Ascending(ChildInos(fs, ino));
            && |kids| == |ChildInos(fs, ino)|
            && (forall k | 0 <= k < |kids| :: kids[k] in fs)
            && (l == DirListing(fs, ino) <==>
                  && |l| == |kids| + 2
                  && l[0] == DirEntry(ino, Dir, ".") && l[1] == DirEntry(fs[ino].parent, Dir, "..")
                  && forall k | 2 <= k < |kids| + 2 :: l[k] == DirEntryOf(fs, kids[k - 2]))
  {
    AscendingListsEach(ChildInos(fs, ino));
    hide Ascending;
    var kids := Ascending(ChildInos(fs, ino));
    assert forall k | 0 <= k < |kids| :: kids[k] in kids;
  }

  /** The entries from `offset` on, as many as fit, each with the offset behind it. */
  function Page<T>(all: seq<T>, offset: nat, capacity: nat): (page: seq<(T, nat)>) {
    if offset <= |all| then
      seq(Min(capacity, |all| - offset), (k: nat) requires k < |all| - offset => (all[offset + k], offset + k + 1))
    else []
  }

  function EntriesOf<T>(page: seq<(T, nat)>): seq<T> {
    seq(|page|, k requires 0 <= k < |page| => page[k].0)
  }

  /**
    Every returned offset is one to resume at: what came up to that entry, and a page from
    its offset, are together one longer page.
   */
  lemma PageResumes<T>(all: seq<T>, offset: nat, capacity: nat, k: nat, more: nat)
    requires k < |Page(all, offset, capacity)|
    ensures EntriesOf(Page(all, offset, capacity))[..k + 1] + EntriesOf(Page(all, Page(all, offset, capacity)[k].1,
      more))
         == EntriesOf(Page(all, offset, k + 1 + more))
    ensures EntriesOf(Page(all, 0, |all|)) == all
  {
  }

  lemma ListingFacts(c: Crypto, entries: Entries, children: Children, byParent: ByParent, next: Ino, ino: Ino)
    requires Good(c, entries, children, byParent, next)
    ensures Kids(byParent, ino) == ChildInos(ViewOf(c, entries), ino)
    ensures Kids(byParent, ino) <= entries.Keys
    ensures forall i | i in entries :: entries[i].ino == i
  {
    forall i ensures i in Kids(byParent, ino) <==> i in ChildInos(ViewOf(c, entries), ino) {
      assert i in Kids(byParent, ino) <==> i in entries && i != ROOT && entries[i].parent == ino;
    }
  }

  /**
    Reading an unchanged directory page by page, each page holding at least one entry and
    resuming after the last one returned, yields the whole listing once and ends.
   */
  method ListAll(inner: PqfsInner, c: Crypto, ino: Ino) returns (all: seq<DirEntry>)
    requires inner.Valid(c) && ino in inner.entries && inner.entries[ino].kind == Dir
    ensures all == DirListing(inner.View(c), ino)
  {
    hide PqfsInner.Valid, DirListing, NodeOf;
    all := [];
    ghost var full := DirListing(inner.View(c), ino);
    var more := true;
    var offset := 0;
    while more
      invariant offset == |all| <= |full| && all == full[..|all|]
      invariant !more ==> |all| == |full|
      decreases |full| - |all|, more
    {
      var capacity: nat :| capacity >= 1;
      var page := inner.Readdir(c, ino, offset, capacity);
      if page.value == [] {
        more := false;
      } else {
        all := all + EntriesOf(page.value);
        offset := page.value[|page.value| - 1].1;
      }
    }
  }

  /** Each child of the directory appears exactly once, behind the two dot entries. */
  lemma ListingIsComplete(fs: Fs, ino: Ino)
    requires ino in fs
    ensures var l := DirListing(fs, ino);
            && |l| == 2 + |ChildInos(fs, ino)|
            && l[0] == DirEntry(ino, Dir, ".") && l[1] == DirEntry(fs[ino].parent, Dir, "..")
            && (forall i, j | 2 <= i < j < |l| :: l[i].ino < l[j].ino)
            && (forall i | i in ChildInos(fs, ino) :: DirEntryOf(fs, i) in l[2..])
            && (forall e | e in l[2..] :: e.ino in ChildInos(fs, ino) && e == DirEntryOf(fs, e.ino))
            && (forall e | e in l[2..] :: e.name == fs[e.ino].name && e.kind == fs[e.ino].kind)
  {
    hide DirListing, Ascending;
    var kids := Ascending(ChildInos(fs, ino));
    AscendingListsEach(ChildInos(fs, ino));
    var l := DirListing(fs, ino);
    ListingIs(fs, ino, l);
    forall i | i in ChildInos(fs, ino) ensures DirEntryOf(fs, i) in l[2..] {
      assert i in kids;
      var k :| 0 <= k < |kids| && kids[k] == i;
      assert l[2..][k] == DirEntryOf(fs, i);
    }
    forall e | e in l[2..] ensures e.ino in ChildInos(fs, ino) && e == DirEntryOf(fs, e.ino) {
      var k :| 0 <= k < |l[2..]| && l[2..][k] == e;
      assert e == l[k + 2] && kids[k] in kids;
    }
  }

  // ---- Rebuilding ----

  ghost predicate UniqueSlots(entries: Entries) {
    forall i, j | i in entries && j in entries && i != ROOT && j != ROOT && SlotOf(entries[i]) == SlotOf(entries[j]) ::
      i == j
  }

  /** Each used slot holds the largest inode number that has it. */
  ghost predicate LastWins(entries: Entries, children: Children) {
    && (forall i | i in entries && i != ROOT :: SlotOf(entries[i]) in children && i <= children[SlotOf(entries[i])])
    && (forall k | k in children :: children[k] in entries && children[k] != ROOT && SlotOf(entries[children[k]]) == k)
  }

  ghost predicate RebuiltFrom(entries: Entries, done: seq<Ino>, children: Children, byParent: ByParent) {
    && (forall i | i in done :: i in entries && i != ROOT)
    && (forall i | i in done :: SlotOf(entries[i]) in children && i <= children[SlotOf(entries[i])])
    && (forall k | k in children :: children[k] in done && SlotOf(entries[children[k]]) == k)
    && (forall p, i :: i in Kids(byParent, p) <==> i in done && entries[i].parent == p)
    && (forall p | p in byParent :: byParent[p] != {})
  }

  lemma RebuildStart(entries: Entries)
    ensures RebuiltFrom(entries, [], map[], map[])
  {
  }

  lemma RebuildStep(entries: Entries, done: seq<Ino>, i: Ino, children: Children, byParent: ByParent)
    requires RebuiltFrom(entries, done, children, byParent) && i in entries && i != ROOT && forall j | j in done ::
      j < i
    ensures RebuiltFrom(entries, done + [i], children[SlotOf(entries[i]) := i],
      LinkKids(byParent, i, entries[i].parent))
  {
    var byParent' := LinkKids(byParent, i, entries[i].parent);
    forall p ensures Kids(byParent', p) == if p == entries[i].parent then Kids(byParent, p) + {i}
      else Kids(byParent, p) { }
    assert forall j :: j in done + [i] <==> j in done || j == i;
  }

  lemma RebuildDone(entries: Entries, done: seq<Ino>, children: Children, byParent: ByParent)
    requires RebuiltFrom(entries, done, children, byParent) && forall i :: i in done <==> i in entries.Keys - {ROOT}
    ensures LastWins(entries, children) && ByParentExact(entries, byParent)
    ensures UniqueSlots(entries) ==> IndexExact(entries, children, byParent)
  {
  }

  /** `source` moves to (newParent, newName), replacing the childless `replaced` if any. */
  ghost predicate Planned(t: Tree, parent: Ino, name: string, newParent: Ino, newName: string, source: Ino,
    replaced: Option<Ino>) {
    && source in t.fs && source != ROOT
    && match replaced {
         case None =>
           && (forall j :: IsChild(t.fs, newParent, newName, j) ==> j == source)
           && StepRename(t, parent, name, newParent, newName) ==
             (t.(fs := Moved(t.fs, source, newParent, newName)), Done)
         case Some(existing) =>
           && existing != source && IsChild(t.fs, newParent, newName, existing) && !HasChildren(t.fs, existing)
           && StepRename(t, parent, name, newParent, newName) ==
             (t.(fs := Moved(t.fs - {existing}, source, newParent, newName)), Done)
       }
  }

  /** The checks of a rename that every plan passes. */
  ghost predicate MayMove(t: Tree, parent: Ino, name: string, newParent: Ino, source: Ino) {
    && Lookup(t.fs, parent, name) == Some(source) && source in t.fs && source != ROOT
    && newParent in t.fs && t.fs[newParent].kind == Dir
    && !(t.fs[source].kind == Dir && OnChain(t.fs, newParent, source))
  }

  lemma PlanReplaces(t: Tree, parent: Ino, name: string, newParent: Ino, newName: string, source: Ino, existing: Ino)
    requires Namespace.Valid(t) && MayMove(t, parent, name, newParent, source)
    requires Lookup(t.fs, newParent, newName) == Some(existing) && existing != source && existing in t.fs
    requires (t.fs[source].kind == Dir) == (t.fs[existing].kind == Dir) && !HasChildren(t.fs, existing)
    ensures Planned(t, parent, name, newParent, newName, source, Some(existing))
  {
    LookupChild(t.fs, newParent, newName);
    hide Lookup, HasChildren, OnChain, Namespace.Valid, IsChild;
  }

  lemma PlanMoves(t: Tree, parent: Ino, name: string, newParent: Ino, newName: string, source: Ino)
    requires Namespace.Valid(t) && MayMove(t, parent, name, newParent, source)
    requires Lookup(t.fs, newParent, newName) == None || Lookup(t.fs, newParent, newName) == Some(source)
    ensures Planned(t, parent, name, newParent, newName, source, None)
  {
    LookupChild(t.fs, newParent, newName);
    if Lookup(t.fs, newParent, newName).Some? { OnlyChild(t.fs, newParent, newName, source); }
    hide Lookup, HasChildren, OnChain, Namespace.Valid, IsChild;
  }

  lemma ViewKinds(c: Crypto, entries: Entries)
    ensures ViewOf(c, entries).Keys == entries.Keys
    ensures forall i | i in entries :: ViewOf(c, entries)[i].kind == entries[i].kind
  {
  }

  lemma UpOne(fs: Fs, i: Ino)
    requires i in fs
    ensures Up(fs, i, 1) == fs[i].parent
  {
  }

  /** A walk from an inode that is gone has nothing but its start. */
  lemma WalkLeft(fs: Fs, start: Ino, ancestor: Ino)
    requires start !in fs && start != ancestor
    ensures !OnChain(fs, start, ancestor)
  {
  }

  /** At the end of the walk either the root was reached or the chain left the map at once. */
  lemma WalkEnded(c: Crypto, entries: Entries, start: Ino, ancestor: Ino, hops: nat)
    requires ParentsAreDirs(ViewOf(c, entries)) && AllReachRoot(ViewOf(c, entries))
    requires start in entries || hops == 0
    requires Up(ViewOf(c, entries), start, hops) == ROOT || hops == |entries| + 1
    requires forall k: nat | k < hops ::
      Up(ViewOf(c, entries), start, k) != ancestor && Up(ViewOf(c, entries), start, k) != ROOT
    ensures Up(ViewOf(c, entries), start, hops) == ROOT
    ensures OnChain(ViewOf(c, entries), start, ancestor) <==> Up(ViewOf(c, entries), start, hops) == ancestor
  {
    var fs := ViewOf(c, entries);
    assert fs.Keys == entries.Keys;
    if start in fs {
      var n := DepthBound(fs, start);
      assert |fs| == |entries| by { SameSize(c, entries); }
      assert n >= hops;
    }
    forall n: nat | n >= hops && Up(fs, start, hops) == ROOT ensures Up(fs, start, n) == ROOT {
      UpAdd(fs, start, hops, n - hops);
      UpFromRoot(fs, n - hops);
    }
  }

  lemma SameSize(c: Crypto, entries: Entries)
    ensures |ViewOf(c, entries)| == |entries|
  {
    assert ViewOf(c, entries).Keys == entries.Keys;
  }

  lemma RemovalKeepsNames(c: Crypto, fs: Fs, existing: Ino, newParent: Ino, newName: string)
    requires UniqueNames(fs) && IsChild(fs, newParent, newName, existing) && NoClash(c, fs, newParent, newName)
    ensures NoClash(c, fs - {existing}, newParent, newName)
    ensures forall j :: !IsChild(fs - {existing}, newParent, newName, j)
  {
    OnlyChild(fs, newParent, newName, existing);
  }

  lemma TreeOf(c: Crypto, entries: Entries, next: Ino)
    requires Namespace.Valid(Tree(ViewOf(c, entries), next))
    ensures IsTree(ViewOf(c, entries)) && ParentsAreDirs(ViewOf(c, entries))
  {
  }
}
