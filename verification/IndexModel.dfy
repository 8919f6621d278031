/**
  The encrypted directory index: entries with hashed and sealed names, the two lookup
  indexes derived from them, and the plain tree they mean.
 */
module IndexModel {
  import opened Prelude
  import opened SymbolicCrypto
  import opened Namespace

  /** An unlocked volume: its master key and its keyed filename hash. */
  datatype Crypto = Crypto(master: Key, hmac: string -> nat)

  datatype Entry = Entry(
    ino: Ino, parent: Ino, nameHash: nat, nameEncrypted: Blob<string>, contentKey: Blob<Key>,
    kind: Kind, size: nat, perm: nat, linkTarget: Blob<string>)

  type Entries = map<Ino, Entry>
  type Children = map<(Ino, nat), Ino>
  type ByParent = map<Ino, set<Ino>>

  function Encrypt<M>(c: Crypto, nonce: nat, message: M): Blob<M> { Sealed(c.master, nonce, NoAad, message) }

  function Decrypt<M>(c: Crypto, blob: Blob<M>): Option<M> { Open(c.master, NoAad, blob) }

  function EncryptName(c: Crypto, nonce: nat, name: string): Blob<string> {
    Sealed(FilenameKey(c.master), nonce, NoAad, name)
  }

  function DecryptName(c: Crypto, blob: Blob<string>): Option<string> { Open(FilenameKey(c.master), NoAad, blob) }

  // ---- Meaning ----

  function NameOf(c: Crypto, e: Entry): string {
    match DecryptName(c, e.nameEncrypted) case Some(name) => name case None => ""
  }

  function NodeOf(c: Crypto, e: Entry): Node {
    Node(e.parent, NameOf(c, e), e.kind, e.size, Decrypt(c, e.contentKey), DecryptName(c, e.linkTarget), e.perm)
  }

  function ViewOf(c: Crypto, entries: Entries): Fs {
    map i | i in entries :: NodeOf(c, entries[i])
  }

  /** The entry decrypts under the volume's keys and its hash is that of its name. */
  predicate Readable(c: Crypto, e: Entry) {
    && DecryptName(c, e.nameEncrypted).Some?
    && e.nameHash == c.hmac(NameOf(c, e))
    && (e.contentKey.Empty? || Decrypt(c, e.contentKey).Some?)
    && (e.linkTarget.Empty? || DecryptName(c, e.linkTarget).Some?)
  }

  predicate EntriesOk(c: Crypto, entries: Entries) {
    forall i | i in entries :: entries[i].ino == i && Readable(c, entries[i])
  }

  lemma ViewUpdate(c: Crypto, entries: Entries, i: Ino, e: Entry)
    ensures ViewOf(c, entries[i := e]) == ViewOf(c, entries)[i := NodeOf(c, e)]
    ensures ViewOf(c, entries - {i}) == ViewOf(c, entries) - {i}
  {
  }

  // ---- The two indexes ----

  function SlotOf(e: Entry): (Ino, nat) { (e.parent, e.nameHash) }

  function Kids(byParent: ByParent, p: Ino): set<Ino> { if p in byParent then byParent[p] else {} }

  ghost predicate ChildrenExact(entries: Entries, children: Children) {
    && (forall i | i in entries && i != ROOT :: SlotOf(entries[i]) in children && children[SlotOf(entries[i])] == i)
    && (forall k | k in children :: children[k] in entries && children[k] != ROOT && SlotOf(entries[children[k]]) == k)
  }

  predicate IsChildOf(entries: Entries, p: Ino, i: Ino) { i in entries && i != ROOT && entries[i].parent == p }

  ghost predicate ByParentExact(entries: Entries, byParent: ByParent) {
    && (forall p: Ino, i: Ino :: i in Kids(byParent, p) <==> IsChildOf(entries, p, i))
    && (forall p | p in byParent :: byParent[p] != {})
  }

  /** The indexes hold every entry but the root, under its parent and hash, and nothing else. */
  ghost predicate IndexExact(entries: Entries, children: Children, byParent: ByParent) {
    ChildrenExact(entries, children) && ByParentExact(entries, byParent)
  }

  /** There is only one exact pair of indexes, so exact ones are those a rebuild computes. */
  lemma IndexIsUnique(entries: Entries, children: Children, byParent: ByParent, children': Children,
    byParent': ByParent)
    requires IndexExact(entries, children, byParent) && IndexExact(entries, children', byParent')
    ensures children == children' && byParent == byParent'
  {
    forall k ensures k in children <==> k in children' {
      if k in children { assert SlotOf(entries[children[k]]) == k; }
      if k in children' { assert SlotOf(entries[children'[k]]) == k; }
    }
    forall p ensures Kids(byParent, p) == Kids(byParent', p) {
      forall i ensures i in Kids(byParent, p) <==> i in Kids(byParent', p) {
        assert i in Kids(byParent, p) <==> i in entries && i != ROOT && entries[i].parent == p;
      }
    }
    forall p ensures p in byParent <==> p in byParent' {
      assert Kids(byParent, p) == Kids(byParent', p);
    }
    forall p | p in byParent ensures byParent[p] == byParent'[p] {
      assert Kids(byParent, p) == Kids(byParent', p);
    }
  }

  function LinkKids(byParent: ByParent, ino: Ino, parent: Ino): ByParent {
    byParent[parent := Kids(byParent, parent) + {ino}]
  }

  function UnlinkChildren(children: Children, ino: Ino, slot: (Ino, nat)): Children {
    if slot in children && children[slot] == ino then children - {slot} else children
  }

  function UnlinkKids(byParent: ByParent, ino: Ino, parent: Ino): ByParent {
    if parent in byParent then
      if byParent[parent] - {ino} == {} then byParent - {parent} else byParent[parent := byParent[parent] - {ino}]
    else byParent
  }

  lemma LinkExact(entries: Entries, children: Children, byParent: ByParent, e: Entry)
    requires IndexExact(entries, children, byParent)
    requires e.ino !in entries && e.ino != ROOT && SlotOf(e) !in children
    ensures IndexExact(entries[e.ino := e], children[SlotOf(e) := e.ino], LinkKids(byParent, e.ino, e.parent))
  {
    LinkKidsExact(entries, byParent, e);
    hide ByParentExact;
  }

  lemma LinkKidsExact(entries: Entries, byParent: ByParent, e: Entry)
    requires ByParentExact(entries, byParent) && e.ino !in entries && e.ino != ROOT
    ensures ByParentExact(entries[e.ino := e], LinkKids(byParent, e.ino, e.parent))
  {
    var entries', byParent' := entries[e.ino := e], LinkKids(byParent, e.ino, e.parent);
    forall p: Ino, i: Ino ensures i in Kids(byParent', p) <==> IsChildOf(entries', p, i) {
      assert i in Kids(byParent, p) <==> IsChildOf(entries, p, i);
    }
    forall p | p in byParent' ensures byParent'[p] != {} {
      if p == e.parent { assert e.ino in byParent'[p]; }
    }
  }

  lemma UnlinkExact(entries: Entries, children: Children, byParent: ByParent, ino: Ino)
    requires IndexExact(entries, children, byParent) && ino in entries && ino != ROOT
    ensures IndexExact(entries - {ino}, UnlinkChildren(children, ino, SlotOf(entries[ino])),
      UnlinkKids(byParent, ino, entries[ino].parent))
    ensures SlotOf(entries[ino]) in children && children[SlotOf(entries[ino])] == ino
  {
    UnlinkKidsExact(entries, byParent, ino);
    hide ByParentExact;
  }

  lemma UnlinkKidsExact(entries: Entries, byParent: ByParent, ino: Ino)
    requires ByParentExact(entries, byParent) && ino in entries && ino != ROOT
    ensures ByParentExact(entries - {ino}, UnlinkKids(byParent, ino, entries[ino].parent))
  {
    var parent, entries' := entries[ino].parent, entries - {ino};
    var byParent' := UnlinkKids(byParent, ino, parent);
    forall p: Ino, i: Ino ensures i in Kids(byParent', p) <==> IsChildOf(entries', p, i) {
      assert i in Kids(byParent, p) <==> IsChildOf(entries, p, i);
      assert Kids(byParent', p) == if p == parent then Kids(byParent, p) - {ino} else Kids(byParent, p);
    }
  }

  // ---- Lookup through the index is lookup by name ----

  function FindIn(c: Crypto, entries: Entries, children: Children, parent: Ino, name: string): Option<Entry> {
    var slot := (parent, c.hmac(name));
    if slot in children && children[slot] in entries then
      var e := entries[children[slot]];
      if DecryptName(c, e.nameEncrypted) == Some(name) then Some(e) else None
    else None
  }

  /** The hashed lookup finds exactly what a search by parent and decrypted name finds. */
  lemma FindIsLookup(c: Crypto, entries: Entries, children: Children, parent: Ino, name: string)
    requires EntriesOk(c, entries) && ChildrenExact(entries, children)
    ensures FindIn(c, entries, children, parent, name) ==
      match Lookup(ViewOf(c, entries), parent, name) case None => None case Some(i) => Some(entries[i])
    ensures FindIn(c, entries, children, parent, name).Some? ==>
      FindIn(c, entries, children, parent, name).value.ino in entries
  {
    var fs := ViewOf(c, entries);
    LookupChild(fs, parent, name);
    var slot := (parent, c.hmac(name));
    forall i | IsChild(fs, parent, name, i) ensures slot in children && children[slot] == i {
      assert SlotOf(entries[i]) == slot;
    }
    var found := FindIn(c, entries, children, parent, name);
    if found.Some? {
      assert IsChild(fs, parent, name, children[slot]);
    }
  }

  /** No sibling has another name with the same hash: what an HMAC gives in practice. */
  ghost predicate NoClash(c: Crypto, fs: Fs, parent: Ino, name: string) {
    forall i | i in fs && i != ROOT && fs[i].parent == parent && c.hmac(fs[i].name) == c.hmac(name) ::
      fs[i].name == name
  }

  /** Without a clash, a name that is not found has a free slot. */
  lemma FreeSlot(c: Crypto, entries: Entries, children: Children, parent: Ino, name: string)
    requires EntriesOk(c, entries) && ChildrenExact(entries, children)
    requires NoClash(c, ViewOf(c, entries), parent, name)
    ensures (parent, c.hmac(name)) in children ==>
      Lookup(ViewOf(c, entries), parent, name) == Some(children[(parent, c.hmac(name))])
  {
    var fs := ViewOf(c, entries);
    var slot := (parent, c.hmac(name));
    if slot in children {
      var i := children[slot];
      assert fs[i].name == name;
      assert IsChild(fs, parent, name, i);
      LookupChild(fs, parent, name);
      var j := Lookup(fs, parent, name).value;
      assert SlotOf(entries[j]) == slot;
    }
  }

  /** With a clash the new name takes over the old one's slot, and the indexes are wrong. */
  lemma ClashBreaksIndex(entries: Entries, children: Children, e: Entry)
    requires ChildrenExact(entries, children) && e.ino !in entries && e.ino != ROOT && SlotOf(e) in children
    ensures !ChildrenExact(entries[e.ino := e], children[SlotOf(e) := e.ino])
  {
    var clash := children[SlotOf(e)];
    assert SlotOf(entries[e.ino := e][clash]) == SlotOf(e);
  }

  /** Inserting a new entry keeps the indexes exact if and only if its slot is free. */
  lemma LinkExactIffFree(entries: Entries, children: Children, byParent: ByParent, e: Entry)
    requires IndexExact(entries, children, byParent) && e.ino !in entries && e.ino != ROOT
    ensures IndexExact(entries[e.ino := e], children[SlotOf(e) := e.ino], LinkKids(byParent, e.ino, e.parent)) <==>
      SlotOf(e) !in children
  {
    hide ChildrenExact, ByParentExact;
    if SlotOf(e) in children { ClashBreaksIndex(entries, children, e); }
      else { LinkExact(entries, children, byParent, e); }
  }

  lemma KidsAreChildren(c: Crypto, entries: Entries, byParent: ByParent, p: Ino)
    requires ByParentExact(entries, byParent)
    ensures (p in byParent && byParent[p] != {}) <==> HasChildren(ViewOf(c, entries), p)
  {
    var fs := ViewOf(c, entries);
    if p in byParent {
      var i :| i in byParent[p];
      assert i in Kids(byParent, p);
      assert i in fs && fs[i].parent == p;
    }
    if HasChildren(fs, p) {
      var i :| i in fs && i != ROOT && fs[i].parent == p;
      assert i in Kids(byParent, p);
    }
  }

  // ---- The whole in-memory state ----

  ghost predicate Good(c: Crypto, entries: Entries, children: Children, byParent: ByParent, next: Ino) {
    && EntriesOk(c, entries)
    && IndexExact(entries, children, byParent)
    && Namespace.Valid(Tree(ViewOf(c, entries), next))
  }

  lemma InsertGood(c: Crypto, entries: Entries, children: Children, byParent: ByParent, next: Ino, op: Op, e: Entry)
    requires Good(c, entries, children, byParent, next)
    requires op.Create? || op.Mkdir? || op.MakeSymlink?
    requires Admissible(Tree(ViewOf(c, entries), next), op)
    requires e.ino == next && e.nameHash == c.hmac(op.name) && Readable(c, e) && NodeOf(c, e) == NewNode(op)
    requires FindIn(c, entries, children, op.parent, op.name).None? &&
      NoClash(c, ViewOf(c, entries), op.parent, op.name)
    ensures Good(c, entries[e.ino := e], children[SlotOf(e) := e.ino], LinkKids(byParent, e.ino, e.parent), next + 1)
    ensures (Tree(ViewOf(c, entries[e.ino := e]), next + 1), Created(next)) == Step(Tree(ViewOf(c, entries), next), op)
  {
    hide Readable, NodeOf, NewNode, IndexExact, Namespace.Valid, Lookup, NoClash, FindIn, Admissible;
    var t := Tree(ViewOf(c, entries), next);
    SlotOfNew(c, e, op);
    GoodFacts(c, entries, children, byParent, next);
    FindIsLookup(c, entries, children, op.parent, op.name);
    FreeSlot(c, entries, children, op.parent, op.name);
    LinkExact(entries, children, byParent, e);
    ViewUpdate(c, entries, e.ino, e);
    MakeKeepsTree(t, op);
  }

  lemma SlotOfNew(c: Crypto, e: Entry, op: Op)
    requires op.Create? || op.Mkdir? || op.MakeSymlink?
    requires NodeOf(c, e) == NewNode(op)
    ensures e.parent == op.parent
  {
  }

  lemma GoodFacts(c: Crypto, entries: Entries, children: Children, byParent: ByParent, next: Ino)
    requires Good(c, entries, children, byParent, next)
    ensures ChildrenExact(entries, children) && ByParentExact(entries, byParent)
    ensures next !in entries && next != ROOT && next > ROOT && ROOT in entries
  {
    assert ROOT in ViewOf(c, entries);
    assert next !in ViewOf(c, entries);
  }

  lemma RemoveGood(c: Crypto, entries: Entries, children: Children, byParent: ByParent, next: Ino, i: Ino)
    requires Good(c, entries, children, byParent, next) && i in entries && i != ROOT
    requires !HasChildren(ViewOf(c, entries), i)
    ensures Good(c, entries - {i}, UnlinkChildren(children, i, SlotOf(entries[i])),
      UnlinkKids(byParent, i, entries[i].parent), next)
    ensures ViewOf(c, entries - {i}) == ViewOf(c, entries) - {i}
  {
    hide Readable, NodeOf, IndexExact, IsTree, HasChildren;
    UnlinkExact(entries, children, byParent, i);
    ViewUpdate(c, entries, i, entries[i]);
    RemoveLeafKeepsTree(ViewOf(c, entries), i);
  }

  function Relinked(e: Entry, newParent: Ino, hash: nat, sealed: Blob<string>): Entry {
    e.(parent := newParent, nameHash := hash, nameEncrypted := sealed)
  }

  /** Relinking is an unlink followed by a link of the changed entry. */
  lemma RelinkExact(entries: Entries, children: Children, byParent: ByParent, ino: Ino, e: Entry)
    requires IndexExact(entries, children, byParent) && ino in entries && ino != ROOT && e.ino == ino
    requires SlotOf(e) in children ==> children[SlotOf(e)] == ino
    ensures IndexExact(entries[ino := e],
                       UnlinkChildren(children, ino, SlotOf(entries[ino]))[SlotOf(e) := ino],
                       LinkKids(UnlinkKids(byParent, ino, entries[ino].parent), ino, e.parent))
  {
    UnlinkExact(entries, children, byParent, ino);
    var entries', children' := entries - {ino}, UnlinkChildren(children, ino, SlotOf(entries[ino]));
    var byParent' := UnlinkKids(byParent, ino, entries[ino].parent);
    assert SlotOf(e) !in children';
    LinkExact(entries', children', byParent', e);
    assert entries'[ino := e] == entries[ino := e];
  }

  lemma MoveGood(c: Crypto, entries: Entries, children: Children, byParent: ByParent, next: Ino, i: Ino,
                 newParent: Ino, newName: string, nonce: nat)
    requires Good(c, entries, children, byParent, next) && i in entries && i != ROOT
    requires NoClash(c, ViewOf(c, entries), newParent, newName)
    requires forall j :: IsChild(ViewOf(c, entries), newParent, newName, j) ==> j == i
    requires Namespace.Valid(Tree(Moved(ViewOf(c, entries), i, newParent, newName), next))
    ensures var e := Relinked(entries[i], newParent, c.hmac(newName), EncryptName(c, nonce, newName));
            && Good(c, entries[i := e], UnlinkChildren(children, i, SlotOf(entries[i]))[SlotOf(e) := i],
                    LinkKids(UnlinkKids(byParent, i, entries[i].parent), i, newParent), next)
            && ViewOf(c, entries[i := e]) == Moved(ViewOf(c, entries), i, newParent, newName)
  {
    hide IndexExact, Namespace.Valid, Lookup, NoClash, ChildrenExact;
    var e := Relinked(entries[i], newParent, c.hmac(newName), EncryptName(c, nonce, newName));
    GoodFacts(c, entries, children, byParent, next);
    FreeSlot(c, entries, children, newParent, newName);
    LookupChild(ViewOf(c, entries), newParent, newName);
    RelinkExact(entries, children, byParent, i, e);
    ViewUpdate(c, entries, i, e);
  }

  /** A change of size, key or permissions touches neither index nor tree. */
  lemma AttributesGood(c: Crypto, entries: Entries, children: Children, byParent: ByParent, next: Ino, e: Entry)
    requires Good(c, entries, children, byParent, next) && e.ino in entries && Readable(c, e)
    requires SlotOf(e) == SlotOf(entries[e.ino]) && e.kind == entries[e.ino].kind &&
      NameOf(c, e) == NameOf(c, entries[e.ino])
    ensures Good(c, entries[e.ino := e], children, byParent, next)
    ensures ViewOf(c, entries[e.ino := e]) == ViewOf(c, entries)[e.ino := NodeOf(c, e)]
  {
    hide Readable, IndexExact, Namespace.Valid;
    ViewUpdate(c, entries, e.ino, e);
    SameShapeKeepsTree(Tree(ViewOf(c, entries), next), e.ino, NodeOf(c, e));
    SameSlotExact(entries, children, byParent, e);
  }

  lemma SameSlotExact(entries: Entries, children: Children, byParent: ByParent, e: Entry)
    requires IndexExact(entries, children, byParent) && e.ino in entries && SlotOf(e) == SlotOf(entries[e.ino])
    ensures IndexExact(entries[e.ino := e], children, byParent)
  {
  }
}
