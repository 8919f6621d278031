/** Loading the index file, and re-encrypting it under a new master key. */
module Reload {
  import opened Prelude
  import opened SymbolicCrypto
  import opened Namespace
  import opened IndexModel
  import opened Inner

  datatype IndexError = CannotDecrypt(ino: Option<Ino>)

  /** What an index file means to the volume that opens it; none means a fresh volume. */
  ghost function DiskTree(c: Crypto, index: Blob<Entries>): Option<Fs> {
    if index.Empty? then Some(FRESH_TREE.fs)
    else match Decrypt(c, index)
      case None => None
      case Some(entries) => Some(ViewOf(c, entries))
  }

  ghost predicate StoredGood(c: Crypto, entries: Entries) {
    EntriesOk(c, entries) && UniqueSlots(entries) && IsTree(ViewOf(c, entries))
  }

  function RootEntry(c: Crypto, nonce: nat): Entry {
    Entry(ROOT, ROOT, c.hmac(""), EncryptName(c, nonce, ""), Empty, Dir, 0, ROOT_PERM, Empty)
  }

  lemma RootIsGood(c: Crypto, nonce: nat)
    ensures StoredGood(c, map[ROOT := RootEntry(c, nonce)])
    ensures ViewOf(c, map[ROOT := RootEntry(c, nonce)]) == FRESH_TREE.fs
  {
    FreshTreeValid();
    assert ViewOf(c, map[ROOT := RootEntry(c, nonce)]) == FRESH_TREE.fs;
  }

  method NextAfter(entries: Entries) returns (next: Ino)
    ensures forall i | i in entries :: i < next
    ensures if entries == map[] then next == ROOT + 1 else next > 0 && next - 1 in entries
  {
    if entries == map[] {
      return ROOT + 1;
    }
    var rest := entries.Keys;
    next := 0;
    while rest != {}
      invariant rest <= entries.Keys
      invariant forall i | i in entries && i !in rest :: i < next
      invariant next == 0 ==> rest == entries.Keys
      invariant next > 0 ==> next - 1 in entries
      decreases |rest|
    {
      var i :| i in rest;
      rest := rest - {i};
      if i >= next {
        next := i + 1;
      }
    }
  }

  method Load(c: Crypto, index: Blob<Entries>, dataFiles: set<Ino>) returns (r: Result<PqfsInner, IndexError>)
    ensures r.Ok? <==> DiskTree(c, index).Some?
    ensures r.Ok? ==> fresh(r.value) && !r.value.dirty && r.value.index == index && r.value.dataFiles == dataFiles
    ensures r.Ok? ==> r.value.View(c) == DiskTree(c, index).value && forall i | i in r.value.entries ::
      i < r.value.nextIno
    ensures r.Ok? && index.Sealed? ==> r.value.entries == Decrypt(c, index).value
    ensures r.Ok? && (index.Sealed? ==> StoredGood(c, Decrypt(c, index).value)) ==> r.value.Valid(c)
  {
    hide Namespace.IsTree, EntriesOk, UniqueSlots, NodeOf, IndexExact, LastWins, ByParentExact;
    var entries: Entries;
    var nextIno: Ino;
    if index.Sealed? {
      var stored := Decrypt(c, index);
      if stored.None? {
        return Err(CannotDecrypt(None));
      }
      entries := stored.value;
      nextIno := NextAfter(entries);
    } else {
      var nonce: nat := *;
      entries := map[ROOT := RootEntry(c, nonce)];
      RootIsGood(c, nonce);
      nextIno := ROOT + 1;
    }
    var inner := new PqfsInner(entries, nextIno, index, dataFiles);
    inner.RebuildIndexes();
    LoadedBound(c, inner.entries, inner.nextIno);
    r := Ok(inner);
  }

  lemma LoadedBound(c: Crypto, entries: Entries, next: Ino)
    requires forall i | i in entries :: i < next
    ensures IsTree(ViewOf(c, entries)) ==> Namespace.Valid(Tree(ViewOf(c, entries), next))
  {
  }

  lemma ValidIsStoredGood(inner: PqfsInner, c: Crypto)
    requires inner.Valid(c)
    ensures StoredGood(c, inner.entries)
  {
  }

  /** A clean state survives a remount: the reloaded tree is the one in memory. */
  method Remount(inner: PqfsInner, c: Crypto) returns (again: PqfsInner)
    requires inner.Valid(c) && !inner.dirty
    ensures fresh(again) && again.Valid(c)
    ensures again.View(c) == inner.View(c) && again.dataFiles == inner.dataFiles
  {
    ValidIsStoredGood(inner, c);
    var r := Load(c, inner.index, inner.dataFiles);
    again := r.value;
  }

  // ---- rekey_index ----

  predicate CanRewrap(old': Crypto, e: Entry) {
    && (e.contentKey.Empty? || Decrypt(old', e.contentKey).Some?)
    && (e.nameEncrypted.Empty? || DecryptName(old', e.nameEncrypted).Some?)
    && (e.linkTarget.Empty? || DecryptName(old', e.linkTarget).Some?)
  }

  /** `e'` says under the new keys what `e` says under the old ones. */
  predicate Rewrapped(old': Crypto, new': Crypto, e: Entry, e': Entry) {
    && e' == e.(nameHash := e'.nameHash, nameEncrypted := e'.nameEncrypted,
                contentKey := e'.contentKey, linkTarget := e'.linkTarget)
    && (if e.contentKey.Empty? then e'.contentKey.Empty?
        else Decrypt(new', e'.contentKey) == Decrypt(old', e.contentKey))
    && (if e.nameEncrypted.Empty? then e'.nameEncrypted.Empty? && e'.nameHash == e.nameHash
        else
          && DecryptName(new', e'.nameEncrypted) == DecryptName(old', e.nameEncrypted)
          && e'.nameHash == new'.hmac(NameOf(old', e)))
    && (if e.linkTarget.Empty? then e'.linkTarget.Empty?
        else DecryptName(new', e'.linkTarget) == DecryptName(old', e.linkTarget))
  }

  method RewrapEntry(old': Crypto, new': Crypto, e: Entry) returns (r: Option<Entry>)
    ensures r.Some? <==> CanRewrap(old', e)
    ensures r.Some? ==> Rewrapped(old', new', e, r.value)
  {
    var e' := e;
    if e.contentKey.Sealed? {
      var key := Decrypt(old', e.contentKey);
      if key.None? {
        return None;
      }
      var nonce: nat := *;
      e' := e'.(contentKey := Encrypt(new', nonce, key.value));
    }
    if e.nameEncrypted.Sealed? {
      var name := DecryptName(old', e.nameEncrypted);
      if name.None? {
        return None;
      }
      var nonce: nat := *;
      e' := e'.(nameEncrypted := EncryptName(new', nonce, name.value), nameHash := new'.hmac(name.value));
    }
    if e.linkTarget.Sealed? {
      var target := DecryptName(old', e.linkTarget);
      if target.None? {
        return None;
      }
      var nonce: nat := *;
      e' := e'.(linkTarget := EncryptName(new', nonce, target.value));
    }
    r := Some(e');
  }

  ghost predicate AllRewrapped(old': Crypto, new': Crypto, entries: Entries, entries': Entries) {
    entries'.Keys == entries.Keys && forall i | i in entries :: Rewrapped(old', new', entries[i], entries'[i])
  }

  /** The entries `rekey_index` starts from: none at all when there is no index file. */
  function Stored(c: Crypto, index: Blob<Entries>): Option<Entries> {
    if index.Empty? then Some(map[]) else Decrypt(c, index)
  }

  method RekeyIndex(old': Crypto, new': Crypto, index: Blob<Entries>) returns (r: Result<Blob<Entries>, IndexError>)
    ensures r.Ok? <==> Stored(old', index).Some? && forall i | i in Stored(old', index).value ::
      CanRewrap(old', Stored(old', index).value[i])
    ensures r.Ok? ==> r.value.Sealed? && Decrypt(new', r.value).Some?
                      && AllRewrapped(old', new', Stored(old', index).value, Decrypt(new', r.value).value)
  {
    var entries: Entries := map[];
    if index.Sealed? {
      var stored := Decrypt(old', index);
      if stored.None? {
        return Err(CannotDecrypt(None));
      }
      entries := stored.value;
    }
    hide Rewrapped, CanRewrap;
    ghost var before := entries;
    var rest := entries.Keys;
    while rest != {}
      invariant rest <= entries.Keys && entries.Keys == before.Keys
      invariant forall i | i in rest :: entries[i] == before[i]
      invariant forall i | i in before && i !in rest ::
        CanRewrap(old', before[i]) && Rewrapped(old', new', before[i], entries[i])
      decreases |rest|
    {
      var i :| i in rest;
      var e := RewrapEntry(old', new', entries[i]);
      if e.None? {
        return Err(CannotDecrypt(Some(i)));
      }
      entries := entries[i := e.value];
      rest := rest - {i};
    }
    var nonce: nat := *;
    r := Ok(Encrypt(new', nonce, entries));
  }

  /** The new keyed hash separates the names of every two siblings. */
  ghost predicate SiblingsSeparated(c: Crypto, fs: Fs) {
    forall i, j | i in fs && j in fs && i != ROOT && j != ROOT && fs[i].parent == fs[j].parent &&
      c.hmac(fs[i].name) == c.hmac(fs[j].name) ::
      fs[i].name == fs[j].name
  }

  lemma RewrapKeepsNode(old': Crypto, new': Crypto, e: Entry, e': Entry)
    requires Readable(old', e) && Rewrapped(old', new', e, e')
    ensures Readable(new', e') && NodeOf(new', e') == NodeOf(old', e) && e'.ino == e.ino
    ensures e'.nameHash == new'.hmac(NameOf(new', e'))
  {
  }

  /** Rekeying changes no inode, parent, kind, size, name, link target or content key. */
  lemma RekeyPreservesMeaning(old': Crypto, new': Crypto, entries: Entries, entries': Entries)
    requires EntriesOk(old', entries) && AllRewrapped(old', new', entries, entries')
    ensures EntriesOk(new', entries') && ViewOf(new', entries') == ViewOf(old', entries)
  {
    hide Readable, Rewrapped, NodeOf;
    forall i | i in entries ensures Readable(new', entries'[i]) &&
      NodeOf(new', entries'[i]) == NodeOf(old', entries[i]) && entries'[i].ino == i {
      RewrapKeepsNode(old', new', entries[i], entries'[i]);
    }
  }

  lemma RekeyKeepsSlotsApart(old': Crypto, new': Crypto, entries: Entries, entries': Entries)
    requires EntriesOk(old', entries) && AllRewrapped(old', new', entries, entries')
    requires UniqueNames(ViewOf(old', entries)) && SiblingsSeparated(new', ViewOf(old', entries))
    ensures UniqueSlots(entries')
  {
    hide Readable, Rewrapped;
    var fs := ViewOf(old', entries);
    forall i, j | i in entries' && j in entries' && i != ROOT && j != ROOT && SlotOf(entries'[i]) == SlotOf(entries'[j])
      ensures i == j {
      RewrapKeepsNode(old', new', entries[i], entries'[i]);
      RewrapKeepsNode(old', new', entries[j], entries'[j]);
      assert fs[i].parent == fs[j].parent && new'.hmac(fs[i].name) == new'.hmac(fs[j].name);
    }
  }

  /**
    Rekey a clean volume that has an index file and open it under the new key: the same
    tree, so every lookup finds the same inode with the same size and content key.
   */
  method RekeyAndLoad(inner: PqfsInner, old': Crypto, new': Crypto) returns (again: PqfsInner)
    requires inner.Valid(old') && !inner.dirty && inner.index.Sealed?
    requires SiblingsSeparated(new', inner.View(old'))
    ensures fresh(again) && again.Valid(new') && again.View(new') == inner.View(old')
    ensures again.dataFiles == inner.dataFiles
  {
    ValidIsStoredGood(inner, old');
    hide SiblingsSeparated, Namespace.Valid, NodeOf, Readable;
    ReadableCanRewrap(old', inner.entries);
    var r := RekeyIndex(old', new', inner.index);
    ghost var entries' := Decrypt(new', r.value).value;
    RekeyPreservesMeaning(old', new', inner.entries, entries');
    RekeyKeepsSlotsApart(old', new', inner.entries, entries');
    var loaded := Load(new', r.value, inner.dataFiles);
    again := loaded.value;
  }

  lemma ReadableCanRewrap(c: Crypto, entries: Entries)
    requires EntriesOk(c, entries)
    ensures forall i | i in entries :: CanRewrap(c, entries[i])
  {
  }

  /**
    The index file decides: on readable entries, what the rekeyed index means under the
    new key is what the volume meant before if and only if there was an index file. A
    volume that was never saved loses its root.
   */
  lemma RekeyPreservesMeaningIffIndexExists(old': Crypto, new': Crypto, index: Blob<Entries>, rekeyed: Blob<Entries>)
    requires Stored(old', index).Some? && EntriesOk(old', Stored(old', index).value)
    requires rekeyed.Sealed? && Decrypt(new', rekeyed).Some?
    requires AllRewrapped(old', new', Stored(old', index).value, Decrypt(new', rekeyed).value)
    ensures DiskTree(new', rekeyed) == DiskTree(old', index) <==> index.Sealed?
  {
    RekeyPreservesMeaning(old', new', Stored(old', index).value, Decrypt(new', rekeyed).value);
    if index.Empty? {
      assert ROOT !in ViewOf(new', Decrypt(new', rekeyed).value);
      assert ROOT in FRESH_TREE.fs;
    }
  }

  /** Rekeying a volume that was never saved succeeds and leaves an index without a root. */
  method RekeyUnsaved(old': Crypto, new': Crypto) returns (r: Result<Blob<Entries>, IndexError>)
    ensures DiskTree(old', Empty) == Some(FRESH_TREE.fs) && ROOT in FRESH_TREE.fs
    ensures r.Ok? && DiskTree(new', r.value) == Some(map[])
  {
    r := RekeyIndex(old', new', Empty);
    assert Decrypt(new', r.value).value == map[];
  }
}
