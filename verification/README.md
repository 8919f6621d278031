# pqfs in Dafny

pqfs is an encrypted filesystem: a directory of sealed files (the backend) mounted through
FUSE. This project models the parts of it that are hard to get right and proves what they
promise, for every input, run and interleaving; where a promise does not hold of the code,
it proves exactly when it does.

- **Block store** (`FlatFile`, `BlockStore`, `BlockHistory`). A file is a row of sealed
  64 KiB records, the last one short. Reading, writing and truncating are imperative
  methods on a `DataFile`, proved to be slice, overlay with zero fill and resize on one
  flat byte sequence. The u64 steps of the loops go
  through a checked `U64`; `IndexFits` bounds the products inside the length and offset
  functions.
- **Directory tree** (`Namespace`, `NamespaceEffects`, `IndexModel`, `Listing`, `Inner`,
  `InnerRuns`, `Reload`).
  `Namespace` is the filesystem a user sees, with plain names and whole parent chains.
  `Inner.PqfsInner` is the class the source has, with `entries`, `children`, `by_parent`,
  the inode counter, the dirty flag and the sealed index; each of its operations is proved
  to do to its decrypted view what `Namespace` says. `Reload` adds loading and `rekey_index`.
- **Mounted volume** (`MountModel`, `MountSafety`, `MountRuns`, `MountProgress`,
  `MountOrder`, `MountCompletion`). One
  dispatcher, any number of workers, a metadata lock and a lock per inode, as steps: a
  writer locks, snapshots, changes the data file in two visible steps with anything in
  between, and commits. `BlockHistory.RunOp` and `ReadFile` prove what the machine takes a
  data step and a read to do; `Inner` proves what it takes a commit and a namespace change
  to do.
- **Rekey swap** (`RekeySwap`, `RekeyDeaths`, `RekeyCommit`). A durable directory plus
  unsynced operations; a power loss keeps any subset, a process death keeps them all,
  still unsynced, for the next process. `RekeyCommit.Backend` is the code, proved to move
  through machine states only.
- **Key slots** (`KeySlots`, `Commands`, `CommandReplies`). Runs of init, share, revoke, passwd and rekey.
- **Rekey as a whole** (`RekeyWhole`). Slots, index and swap together: each generation of
  the swap machine stands for a real header and a real index.

Cryptography is symbolic (`SymbolicCrypto`): a sealed blob is a free constructor, so it
opens exactly with its own key and associated data, as the AEAD interface of section 2 of
RFC 5116 asks, and a decapsulation by the wrong identity gives an unrelated secret, as
section 7.3 of FIPS 203 asks. Nothing is assumed. The filename HMAC is an arbitrary
function; where distinct sibling names must have distinct hashes the precondition says so
(`NoClash`, `SiblingsSeparated`), and `LinkExactIffFree` shows that it cannot be dropped.

What the source takes from the outside is a precondition: the kernel creates entries only
in live directories (`Admissible`) and keeps offsets and sizes below 2^63 + 2^32
(`KernelLimits`).

## Where code and documentation differ

The model follows the code.

- `README.md:169-170` promises that the next command completes an interrupted rekey.
  `recover` needs both staging files (`src/crypto/volume.rs:219`), so after a crash in one
  window it refuses forever. `StuckExactlyInWindow` gives the window and
  `StuckExactlyWhen` the surviving operations, `EveryRekeyCanStrand` and
  `FreshVolumeStrands` a run into it, `StuckForever` the consequence.
  For a process that dies without power loss, `DeathIsCompletedIff` is the exact condition.
- The same sentence calls the swap atomic. Process deaths alone never mix header and index
  (`DeathsAloneAreSafe`), nor do power losses alone (`EveryCrashIsSafe`). Together they do
  exactly if a process dies with the marker's creation or removal unsynced
  (`DeathIsSafeIff`; runs in `FreshVolumeMixes` and `FreshVolumeCuts`).
- `README.md:42-43` says that slots cannot be added or removed without detection. Mounting
  and rekeying check the MAC; share, revoke and passwd do not, and seal whatever list they
  find: `OnlyRekeyDetects`, `PasswdSealsShortened`.
- A file synced by fsync can be lost with its entry in `data/`, which is never synced:
  `FsyncSurvivesIff`.
- `README.md:38-39` says that writes touch only the blocks they need. `write_range`
  rewrites every block from the first touched one to the end (`src/fs/blocks.rs:120`), and
  fails if any of those is damaged. `WriteNeedsOnlyItsBlocksIff` says exactly when that
  matters, and `OneByteWriteFails` is a write that fails for a block it does not change.
- A rekey of a volume that was never saved writes an empty index
  (`src/fs/inner.rs:241-243`) and so loses the root: `RekeyPreservesMeaningIffIndexExists`,
  `RekeyUnsaved`.
- A rekey unlocked with an identity and given a password sets the password slot to that
  password, whatever it was: `RekeyKeepsCredentialsIff`, `PasswordTakenOver`.
- The 256 KiB header cap is checked on reading only. `StaysReadableIff` is the exact
  condition for every command; `OneShareTooMany` and `OnePasswdTooMany` are runs from a new
  volume that break it, and `UnreadableForever` is what follows.
- A queued read keeps the size it was dispatched with: `ReadIsSerialIffCurrent`,
  `StaleReadCanFail`.

## Model

| member | source | states |
|---|---|---|
| `SymbolicCrypto.RecordOpensOnlyInPlace` | src/crypto/aead.rs:36-70 | a sealed block opens with the key and block index it was sealed with, to its plaintext, and with no other key or index |
| `SymbolicCrypto.OpenedWasSealed` | src/crypto/aead.rs:54-70 | whatever bytes open are one whole record sealed under that key and index: plaintext plus 40 bytes |
| `FlatFile.ReplayIsLatest` | src/fs/blocks.rs:102-176 | replaying a history of writes and truncates equals a second, byte-by-byte definition: each position holds what the last operation touching it put there, gaps and regrown tails are zero |
| `BlockStore.DataFileLenClosedForm` | src/fs/blocks.rs:13-31 | the end of the last record is size + 40 * ceil(size / 65536) |
| `BlockStore.KernelSizesFit` | src/fs/blocks.rs:13-31 | for every size below 2^63 + 2^32 no u64 step of the block arithmetic wraps, the record stride and final length included |
| `BlockStore.IndexFits` | src/fs/blocks.rs:29-31 | offset and end of every record of a fitting file fit in u64 |
| `BlockStore.ReadBlock` | src/fs/blocks.rs:33-46 | succeeds exactly on an authentic record of the expected length for that size and index, and returns its plaintext |
| `BlockStore.WriteBlock` | src/fs/blocks.rs:48-60 | lays one record at its offset, zero-filling a gap before it, and touches nothing else |
| `BlockStore.ReadRange` | src/fs/blocks.rs:72-100 | on any file: success exactly when every touched record is authentic; on a file that represents a flat sequence: exactly the slice of it, for every offset and length |
| `BlockStore.PatchBuffer` | src/fs/blocks.rs:121-138 | the patched block holds data inside the written range, old bytes elsewhere, zeros past the old block |
| `BlockStore.CopiedBytes` | src/fs/blocks.rs:129-138 | the copied range is exactly where the data meets the block; every other byte stays |
| `BlockStore.RewriteBlock` | src/fs/blocks.rs:120-141 | one turn of the write loop keeps the loop's state: new-size records behind, untouched old-size records ahead |
| `BlockStore.NextRecordIntact` | src/fs/blocks.rs:120-124 | the old record the loop is about to read has not been overwritten by the longer new records before it |
| `BlockStore.WriteRangeMeaning` | src/fs/blocks.rs:102-144 | the finished loop leaves records that represent the overlay, including the blocks before the first touched one |
| `BlockStore.WriteRange` | src/fs/blocks.rs:102-144 | refines flat overlay for every size, offset and data; fails exactly when an old record from the first touched block to the end is not authentic; returns max(size, offset + len) |
| `BlockStore.Shrink` | src/fs/blocks.rs:168-175 | cutting inside a block refines the flat prefix; fails exactly when the new last block is not authentic |
| `BlockStore.Truncate` | src/fs/blocks.rs:146-176 | refines flat resize in all branches, with the exact failure condition of each; the same size leaves the file alone, and size zero leaves it without bytes |
| `BlockHistory.EncodeRepresents` | src/fs/blocks.rs:48-60 | every flat file has a data file that represents it |
| `BlockHistory.RepresentsOnce` | src/fs/blocks.rs:33-46 | a data file represents at most one flat file under one key and size |
| `BlockHistory.RunOp` | src/fs/ops.rs:77-120 | a worker's data step always succeeds on a represented file and leaves the represented result of the operation |
| `BlockHistory.RunHistory` | src/fs/blocks.rs:72-176 | after any history the data file represents its replay, and is exactly size + 40 * ceil(size / 65536) long while the size is positive |
| `BlockHistory.OrphanBytesAreInvisible` | src/fs/ops.rs:570-577 | from size 0, the same history on any two data files, whatever bytes they held, answers every read alike: the slice of the replay |
| `BlockHistory.ReadFile` | src/fs/ops.rs:39-75 | a missing data file reads as empty; a represented one gives the slice |
| `BlockHistory.StaleReadExact` | src/fs/blocks.rs:72-100 | a read made with an old size succeeds exactly when the blocks it touches are as long at both sizes, then returns current bytes, and equals a current read exactly under a condition on the two sizes, offset and length |
| `BlockHistory.StaleReplyExact` | src/fs/ops.rs:39-75 | the same for the reply of `do_read`, at every size and with the data file missing |
| `BlockHistory.StaleReadCanFail` | src/fs/wrapper.rs:183-194 | on every data file of a two-byte file, the read of its first byte that was queued when it had one byte gets an error |
| `BlockHistory.ReadReplyIsDetermined` | src/fs/ops.rs:39-75 | key, size and data file decide whether a read succeeds and with which bytes |
| `BlockHistory.WriteNeedsOnlyItsBlocksIff` | src/fs/blocks.rs:117-124 | a write succeeds whenever the blocks it changes are authentic if and only if it reaches the last block (or must fill it up): an exact condition on size, offset and length, for all contents and keys |
| `BlockHistory.DamagedTailExists` | src/fs/blocks.rs:33-46 | a two-block file with block 0 authentic and block 1 not exists under every key |
| `BlockHistory.OneByteWriteFails` | src/fs/blocks.rs:120-124 | on every such file a one-byte write to block 0 fails |
| `Namespace.DepthBound` | src/fs/ops.rs:444-457 | on a tree the root is fewer hops away than there are entries, so the hop bound never cuts the walk short |
| `Namespace.MoveIsSafeIffNotDescendant` | src/fs/ops.rs:485-488 | moving an inode keeps every chain reaching the root if and only if the new parent is not the inode or below it: the refused moves are exactly the bad ones |
| `Namespace.StepKeepsTree` | src/fs/ops.rs:162-542 | create, mkdir, symlink, unlink, rmdir, rename and chmod each keep one acyclic tree under the root with unique sibling names and live directory parents |
| `Namespace.RunKeepsTree` | src/fs/ops.rs:162-542 | every run of them does, and the inode counter never goes back |
| `Namespace.StepAllocates` | src/fs/inner.rs:224-228 | an operation adds at most one inode, the next number, and moves the counter past it |
| `Namespace.CreatedAreDistinct` | src/fs/inner.rs:224-228 | two creations of one run never get the same inode number, even after the first inode is gone |
| `Namespace.StepKeepsData` | src/fs/ops.rs:162-542 | no namespace operation changes kind, size or key of a surviving inode; a failed one changes nothing; a new file is empty and has a key |
| `Namespace.RenameLookups` | src/fs/ops.rs:459-542 | after a successful rename the new name finds the source, the old name nothing, and every other lookup what it found before |
| `Namespace.RenameMovesSubtree` | src/fs/ops.rs:459-542 | every path below the renamed inode resolves as before |
| `NamespaceEffects.MakeExact` | src/fs/ops.rs:162-326 | create, mkdir and symlink answer EEXIST exactly when the name finds something; otherwise one new inode is added, the name finds it, and every other node is unchanged |
| `NamespaceEffects.MadeAsAsked` | src/fs/ops.rs:183-326 | the new inode has the parent, name, kind, permission bits, size, key and link target of the request |
| `NamespaceEffects.MakeLookups` | src/fs/ops.rs:162-326 | every other lookup finds what it found before |
| `NamespaceEffects.NewDirectoryIsUsable` | src/fs/ops.rs:219-266 | in a directory just made, anything can be created under any name |
| `NamespaceEffects.UnlinkExact` | src/fs/ops.rs:346-370 | each answer exactly when: ENOENT, EISDIR, or done with the found inode gone, the name finding nothing, and every other node and lookup unchanged |
| `NamespaceEffects.RmdirExact` | src/fs/ops.rs:372-393 | the same for rmdir, with ENOTDIR and ENOTEMPTY |
| `NamespaceEffects.RenameReplies` | src/fs/ops.rs:468-512 | each refusal of rename exactly when, in terms of lookups, kinds, children and ancestry; a refused rename changes nothing |
| `NamespaceEffects.RenameEffect` | src/fs/ops.rs:459-542 | a rename that succeeds moves the source, removes the replaced entry, which is a directory exactly if the source is and has no children, and changes no other node |
| `NamespaceEffects.ChmodExact` | src/fs/ops.rs:396-442 | a mode change answers ENOENT exactly for a missing inode and otherwise changes nine bits of one node |
| `IndexModel.IndexIsUnique` | src/fs/inner.rs:78-95 | `children` and `by_parent` are determined by `entries`: exact indexes are the ones a rebuild computes |
| `IndexModel.FindIsLookup` | src/fs/inner.rs:213-222 | the hashed lookup finds exactly what a search by parent and decrypted name finds |
| `IndexModel.FreeSlot` | src/fs/ops.rs:170-209 | without a hash clash, a name that is not found has a free slot |
| `IndexModel.ClashBreaksIndex` | src/fs/inner.rs:92-95 | with a clash the insertion necessarily breaks the index |
| `IndexModel.LinkExactIffFree` | src/fs/inner.rs:92-95 | inserting a new entry keeps the indexes exact if and only if its slot is free, so the no-clash condition cannot be dropped |
| `IndexModel.InsertGood` | src/fs/inner.rs:109-118 | inserting an entry under a free name keeps tree and exact indexes and is the abstract creation |
| `IndexModel.RemoveGood` | src/fs/inner.rs:120-124 | removing a childless entry keeps tree and exact indexes |
| `IndexModel.MoveGood` | src/fs/inner.rs:126-146 | relinking keeps exact indexes and is the abstract move |
| `Listing.AscendingListsEach` | src/fs/inner.rs:148-154 | a set in ascending order lists each element once |
| `Inner.PqfsInner.Link` | src/fs/inner.rs:92-95 | both indexes gain the entry |
| `Inner.PqfsInner.UnlinkIndex` | src/fs/inner.rs:97-107 | both indexes lose the entry, the slot only if the entry still owns it, and no empty child set stays |
| `Inner.PqfsInner.InsertEntry` | src/fs/inner.rs:109-118 | entry stored; a replaced entry is unlinked first, every entry but the root is linked, with the whole new indexes stated in each case |
| `Inner.PqfsInner.RemoveEntry` | src/fs/inner.rs:120-124 | entry and its links removed and returned, or nothing changed |
| `Inner.PqfsInner.Relink` | src/fs/inner.rs:126-146 | entry moved to its new parent, hash and sealed name in entries and both indexes |
| `Inner.PqfsInner.FindChild` | src/fs/inner.rs:213-222 | answers as the search by parent and plain name |
| `Inner.PqfsInner.HasChildrenOf` | src/fs/inner.rs:156-158 | answers whether some entry has that parent |
| `Inner.PqfsInner.AllocateIno` | src/fs/inner.rs:224-228 | the counter before, then one more; if every live inode was below the counter, the new number is above all of them |
| `Inner.PqfsInner.SaveIndex` | src/fs/inner.rs:171-187 | the stored index reloads to the entries and the flag is clear |
| `Inner.PqfsInner.FlushIndex` | src/fs/inner.rs:164-169 | a clean state keeps its stored index, a dirty one is saved; afterwards the stored index reloads to the entries |
| `Inner.PqfsInner.Create` | src/fs/ops.rs:162-217 | refines abstract creation, reply included, keeping tree, indexes, names and the meaning of a clear dirty flag |
| `Inner.PqfsInner.Mkdir` | src/fs/ops.rs:219-266 | the same for directories |
| `Inner.PqfsInner.MakeSymlink` | src/fs/ops.rs:268-326 | the same for links, the target readable again |
| `Inner.PqfsInner.Unlink` | src/fs/ops.rs:346-370 | refines abstract unlink with its three replies; the data file goes with the entry |
| `Inner.PqfsInner.Rmdir` | src/fs/ops.rs:372-393 | refines abstract rmdir with its replies |
| `Inner.PqfsInner.IsDescendantOf` | src/fs/ops.rs:444-457 | true exactly when the ancestor is on the reflexive parent chain |
| `Inner.PqfsInner.PlanRename` | src/fs/ops.rs:468-512 | every refusal is the abstract one; otherwise source and replaced entry are the right ones |
| `Inner.PqfsInner.Rename` | src/fs/ops.rs:459-542 | refines abstract rename in all branches, replacement included, and removes exactly the replaced entry's data file |
| `Inner.PqfsInner.CommitWrite` | src/fs/ops.rs:557-584 | size and key recorded and the state dirty, or nothing at all when the entry is gone |
| `Inner.PqfsInner.ApplySetattr` | src/fs/ops.rs:396-442 | permission bits, size and key recorded and saved, or ENOENT and no change |
| `Inner.PqfsInner.RebuildIndexes` | src/fs/inner.rs:78-90 | on any entries: the largest inode wins a shared slot; with distinct slots the indexes are exact |
| `Inner.PqfsInner.CollectListing` | src/fs/ops.rs:138-152 | the listing: the two dot entries, then the children by inode number |
| `Inner.PqfsInner.Readdir` | src/fs/ops.rs:122-160 | one page of that listing from the offset, each entry with the offset to resume at, or the right error |
| `Inner.ListAll` | src/fs/ops.rs:122-160 | paging with any capacities of at least one entry, resuming at the last returned offset, ends and yields the whole listing once |
| `Inner.PageResumes` | src/fs/ops.rs:154-158 | every returned offset is one to resume at, not only the last: the part up to that entry and a page from its offset are one longer page |
| `Inner.ListingIsComplete` | src/fs/ops.rs:138-152 | the two dot entries, then each child exactly once, in inode order, with its name and kind, and nothing else |
| `InnerRuns.Perform` | src/fs/ops.rs:162-542 | each operation of the class is the abstract one, reply included, and keeps the class valid |
| `InnerRuns.RunAll` | src/fs/ops.rs:162-542 | every run of operations on the class ends in the tree of the abstract run, with exact indexes and a clean flag that means saved |
| `InnerRuns.RebuildChangesNothing` | src/fs/inner.rs:78-90 | in every valid state the two indexes are the ones a rebuild from the entries computes |
| `Reload.NextAfter` | src/fs/inner.rs:38 | one past the largest inode, or 2 when there is none |
| `Reload.Load` | src/fs/inner.rs:26-76 | succeeds exactly when the index is absent or decrypts; a good stored index gives a valid state with the stored meaning, an absent one the root alone |
| `Reload.Remount` | src/fs/inner.rs:160-187 | a clean state reloads to the same tree |
| `Reload.RewrapEntry` | src/fs/inner.rs:245-267 | succeeds exactly when every sealed part opens under the old key; the new entry says under the new key what the old one said |
| `Reload.RekeyIndex` | src/fs/inner.rs:234-270 | the same for the whole index, which opens under the new key |
| `Reload.RekeyPreservesMeaning` | src/fs/inner.rs:234-270 | inodes, parents, kinds, sizes, names, link targets and content keys are those of before |
| `Reload.RekeyKeepsSlotsApart` | src/fs/inner.rs:253-259 | if the new keyed hash separates sibling names, no two siblings share a slot afterwards |
| `Reload.RekeyAndLoad` | src/fs/inner.rs:234-270 | rekeying a clean saved volume and loading it under the new key gives a valid state with the same tree and data files |
| `Reload.RekeyPreservesMeaningIffIndexExists` | src/fs/inner.rs:241-243 | what the rekeyed index means is what the volume meant before if and only if there was an index file |
| `Reload.RekeyUnsaved` | src/fs/inner.rs:241-243 | rekeying without an index file succeeds and leaves an index that means no root at all |
| `KeySlots.OwnerOpens` | src/crypto/volume.rs:121-153 | a well-formed slot opens for its one owner, to the master key, and for nobody else |
| `KeySlots.TransplantedSlotOpensNothing` | src/crypto/keys.rs:79-101 | a slot made for one volume opens nothing in another, for anybody |
| `KeySlots.OwnersOpen` | src/crypto/volume.rs:112-119 | the search finds the master key exactly for credentials that own a slot |
| `KeySlots.OpenMasterKey` | src/crypto/volume.rs:112-119 | the loop is that search; on a well-formed header it answers by ownership alone |
| `KeySlots.FirstAnswerDecides` | src/crypto/volume.rs:112-119 | on any header, well formed or not, the first slot that accepts the credential or cannot be tried decides |
| `KeySlots.BadKdfCannotBeTried` | src/crypto/volume.rs:121-153 | a password slot with KDF parameters out of range is an error, not a wrong password |
| `KeySlots.SlotOrderIsIrrelevant` | src/crypto/volume.rs:112-119 | permuting the slots changes no credential's answer |
| `Commands.Volume.Init` | src/crypto/volume.rs:31-56 | refuses an existing header and leaves it alone; otherwise writes the new volume's header |
| `Commands.InitIsWellFormed` | src/crypto/volume.rs:31-56 | that header is well formed, can be read back, has one password slot with the default KDF parameters, and is opened by exactly the given password |
| `Commands.Volume.OpenVolume` | src/commands.rs:50-52 | header read, credential resolved, key opened, with the first error on the way; no MAC check, as in share, revoke and passwd |
| `Commands.Volume.Unlock` | src/crypto/volume.rs:69-77 | the same with the MAC verified; on a well-formed header the check never fails |
| `Commands.Volume.Share` | src/commands.rs:39-64 | does what the abstract command says, or refuses with its error and changes nothing |
| `Commands.Volume.Revoke` | src/commands.rs:66-84 | the same; the last slot cannot be revoked |
| `Commands.Volume.Passwd` | src/commands.rs:86-123 | the same; an existing password slot is replaced in place with its own KDF parameters |
| `Commands.Volume.Rekey` | src/commands.rs:125-176 | the same; every slot rewrapped in order or the first error and no change |
| `CommandReplies.AccessRefused` | src/crypto/volume.rs:87-119 | without access every command refuses, with the error of what was missing: header, size, version, credential or a slot that accepts it |
| `CommandReplies.IdentityDecides` | src/cli.rs:147-152 | an identity decides alone; a password beside it changes nothing |
| `CommandReplies.ShareReplies` | src/crypto/volume.rs:155-169 | with access, a share succeeds exactly for a key of the build's ML-KEM parameter set |
| `CommandReplies.RevokeReplies` | src/commands.rs:72-77 | with access, a revoke succeeds exactly for an existing slot that is not the only one, with the error of each other case |
| `CommandReplies.PasswdReplies` | src/commands.rs:92-98 | with access, a passwd succeeds exactly for a repeated, non-empty password, with the error of each other case |
| `CommandReplies.RekeyReplies` | src/commands.rs:133-159 | with access, a rekey succeeds exactly if there is no password slot or a password was given |
| `CommandReplies.MacBindsHeader` | src/crypto/keys.rs:103-119 | under one key no two different headers have the same MAC |
| `Commands.NewSlots` | src/commands.rs:39-123 | the whole slot list after a share, revoke or passwd, with label, place and KDF parameters |
| `Commands.RewrapSlotsOk` | src/commands.rs:133-160 | a rekey rewraps slot by slot: same kind, label, public key and KDF parameters, the new key |
| `Commands.CommandKeepsHeader` | src/commands.rs:39-176 | every successful command leaves a well-formed header of the same volume; only rekey changes the master key |
| `Commands.RunKeepsHeader` | src/commands.rs:39-176 | over every run, refusals included: at least one slot, at most one password slot, every slot wraps the one current key bound to the volume, valid MAC |
| `Commands.ShareAdmits` | src/commands.rs:39-64 | afterwards exactly the former credentials and the holder of the given public key open the volume |
| `Commands.RevokeShutsOut` | src/commands.rs:66-84 | afterwards exactly the owners of another slot do |
| `Commands.PasswdReplaces` | src/commands.rs:86-123 | afterwards exactly the new password and the former identities do |
| `Commands.RekeyOwners` | src/commands.rs:133-160 | slot by slot: recipients keep access, a password slot takes the password given |
| `Commands.RekeyKeepsCredentialsIff` | src/commands.rs:125-176 | a rekey preserves who can open the volume if and only if the password given is that of the password slot, or there is none |
| `Commands.RekeyTakesNewPassword` | src/commands.rs:133-160 | otherwise the password slot silently changes hands |
| `Commands.RekeyByPasswordKeepsCredentials` | src/commands.rs:125-176 | unlocked by password: the same credentials, no slot wraps the retired key when the new one is fresh, and the old header still opens to the old key only |
| `Commands.OnlyRekeyDetects` | src/commands.rs:39-128 | if someone replaces the slot list, rekey refuses exactly when it differs; share, revoke and passwd do what they would do had the other list been sealed all along |
| `Commands.PasswdSealsShortened` | src/commands.rs:86-123 | a list shortened on disk is refused by rekey, while a passwd succeeds and seals it, leaving a well-formed header without the lost recipient |
| `Commands.PasswordTakenOver` | src/commands.rs:136-143 | the recipient of a volume with password pw rekeys it passing another password: it succeeds, the other opens the volume from then on and pw does not |
| `Commands.CommandGrows` | src/commands.rs:39-176 | the exact change of the serialized header by each command: a share adds 2382 bytes and the label in UTF-8, a passwd 112 when there is no password slot, a revoke takes its slot away, a rekey changes nothing |
| `Commands.StaysReadableIff` | src/crypto/volume.rs:87-110 | the header any command writes can be read back if and only if its length stays within 256 KiB; revoke and rekey never break it |
| `Commands.UnreadableForever` | src/crypto/volume.rs:92-94 | past the cap every command refuses and the header stays as it is |
| `Commands.OneShareTooMany` | src/crypto/volume.rs:252-271 | from a new volume, the 110th share is accepted, the header it leaves is too large to read, and every later command refuses |
| `Commands.OnePasswdTooMany` | src/commands.rs:110-119 | from a new volume: 109 shares, the password revoked, one more share, and a passwd is accepted that leaves a header too large to read |
| `RekeySwap.CrashConsistent` | src/crypto/volume.rs:211-250 | from any point of a careful run, whatever subset of unsynced links, cuts, renames and removals a power loss keeps, the directory is settled, committed or stuck |
| `RekeySwap.RunKeepsInv` | src/crypto/volume.rs:211-250 | every run of commit and recover with any number of power losses and of process deaths, none of them with the marker's creation or removal unsynced, keeps the invariant, and the committed generation never goes back |
| `RekeySwap.EveryCrashIsSafe` | src/crypto/volume.rs:211-250 | after any such run and one more power loss the next command either refuses, exactly on a stuck directory, or sees header and index of one generation, no older than any whose marker was durable |
| `RekeySwap.OpenedPairIsMatched` | src/crypto/volume.rs:87-110 | in any such run an open that gets past recovery sees a matched pair |
| `RekeySwap.StuckExactlyInWindow` | src/crypto/volume.rs:219-226 | a power loss can leave a volume no command opens again if and only if a rename has been issued and the marker removal is not synced: while a process runs, from its first rename to its last sync |
| `RekeySwap.StuckExactlyWhen` | src/crypto/volume.rs:219-227 | for each state and each set of surviving operations, exactly which leave the volume stuck |
| `RekeySwap.EveryRekeyCanStrand` | src/crypto/volume.rs:211-250 | every rekey of every openable volume passes through the window: eleven steps and a crash that keeps the first rename strand it for good |
| `RekeySwap.FreshVolumeStrands` | src/crypto/volume.rs:211-250 | the same from a fresh volume, with whatever events follow |
| `RekeySwap.StuckForever` | src/crypto/volume.rs:219-221 | a stuck volume is unchanged by every further command and crash |
| `RekeySwap.DeathKeepsInv` | src/crypto/volume.rs:211-250 | a process may die at any step but the three with the marker unsynced and the invariant holds for the next process |
| `RekeyDeaths.DeathIsSafeIff` | src/crypto/volume.rs:231-250 | after a process dies, every careful continuation and power loss stays safe if and only if the marker's creation or removal is not among what it left unsynced |
| `RekeyDeaths.MixedPair` | src/crypto/volume.rs:246-249 | otherwise: a death before the marker is synced, the next command's rename, and a power loss that loses the marker leave the new index beside the old header, and that pair is opened |
| `RekeyDeaths.PartialHeader` | src/crypto/volume.rs:226-227 | otherwise: a death before the marker's removal is synced, the next rekey's staging, and a power loss that loses the removal let a half-written header be recovered over the real one |
| `RekeyDeaths.FreshVolumeMixes` | src/crypto/volume.rs:211-250 | the first of these as a run from a fresh volume |
| `RekeyDeaths.FreshVolumeCuts` | src/crypto/volume.rs:211-250 | the second as a run from a fresh volume |
| `RekeyDeaths.DeathsAloneAreSafe` | src/crypto/volume.rs:211-250 | without power loss, after any run with process deaths anywhere, the next command refuses or sees a matched pair, none too old |
| `RekeyDeaths.DeathIsCompletedIff` | src/crypto/volume.rs:231-233 | the next command after a death refuses if and only if it struck between the first rename and the removal of the marker; a death just before the marker is synced is completed to the new generation |
| `RekeyCommit.Backend.WriteSynced` | src/crypto/volume.rs:202-208 | two machine steps: open truncating, then write and sync |
| `RekeyCommit.Backend.Recover` | src/crypto/volume.rs:211-229 | finishes or refuses by the staging files alone; every state on the way is a machine state |
| `RekeyCommit.Backend.FinishSwap` | src/crypto/volume.rs:223-228 | both renames and the marker removal, each followed by its sync, along machine states |
| `RekeyCommit.Backend.CommitRekey` | src/crypto/volume.rs:234-250 | uncrashed, header and index of the new generation are in place; every state on the way is a machine state |
| `RekeyCommit.PathKeepsInv` | src/crypto/volume.rs:211-250 | every state on such a path satisfies the machine's invariant |
| `RekeyCommit.CommitPoint` | src/crypto/volume.rs:244-247 | once the marker is synced, recovery leads to the new pair |
| `RekeyWhole.ReadByName` | src/fs/ops.rs:39-75 | lookup by name, then the read with the entry's key and size |
| `RekeyWhole.ReadsSurviveRekey` | src/fs/inner.rs:234-270 | after a rekey and a reload every name finds the same inode, and every read of its data file succeeds alike with the same bytes |
| `RekeyWhole.StageRekey` | src/commands.rs:125-169 | slots and index are rekeyed together, or the command refuses for one of the stated reasons |
| `RekeyWhole.RekeyStaysFaithful` | src/commands.rs:125-169 | the staged volume is opened by the same credentials, to a key under which its index means the same tree |
| `RekeyWhole.RunKeepsInv` | src/crypto/volume.rs:211-250 | over every such run of rekeys, deaths and power losses, every generation that could be found on disk is such a volume |
| `RekeyWhole.RekeyIsSafe` | src/crypto/volume.rs:211-250 | after any such run the next command refuses, or header and index are of one generation, exactly the first owners open it, and the key they get decrypts the index to the same tree |
| `RekeyWhole.RekeySurvivesDeaths` | src/crypto/volume.rs:211-250 | without power loss, the same after any run with process deaths anywhere |
| `MountSafety.StepKeepsInv` | src/fs/wrapper.rs:169-531 | every step of every read, write, setattr, fsync and namespace job keeps locks exclusive, snapshots current and data files in agreement with entries and history |
| `MountSafety.HolderExcludes` | src/fs/wrapper.rs:124-127 | whoever holds an inode lock keeps every other job on that inode out of its data step and commit |
| `MountSafety.EndDataInFlight` | src/fs/wrapper.rs:242-254 | the finished data step leaves the file holding what the commit will record |
| `MountSafety.CommitKeepsInv` | src/fs/ops.rs:557-584 | the commit makes entry, history and data file agree again, or drops out if the inode is gone |
| `MountSafety.FinishMetaKeepsInv` | src/fs/wrapper.rs:356-435 | a namespace change between another job's snapshot and commit leaves that job's snapshot current or its inode gone for good |
| `MountSafety.FinishFlushKeepsInv` | src/fs/wrapper.rs:490-505 | fsyncdir saves the index between other jobs' steps without disturbing them |
| `MountRuns.FreshMountIsMounted` | src/fs/inner.rs:40-63 | a volume without an index file mounts to a state all of this applies to |
| `MountRuns.RunKeepsInv` | src/fs/wrapper.rs:169-531 | the invariant holds in every state of every run |
| `MountRuns.ContentsAreSerial` | src/fs/wrapper.rs:227-258 | at every point of every interleaving, a live file with no writer between data step and commit has a data file representing, under its key, exactly as many bytes as its entry says: the serial replay of the commits so far |
| `MountRuns.OnlyTheHolderCommits` | src/fs/wrapper.rs:319-353 | while a writer holds the inode lock no other job of that inode locks, writes or commits |
| `MountOrder.CommitOrderIsLockOrder` | src/fs/wrapper.rs:227-258 | over every run: the operations whose jobs took the lock of an inode and have committed, in lock order, are the committed operations in commit order |
| `MountOrder.ContentsAreSerialInLockOrder` | src/fs/wrapper.rs:227-258 | so the data file of a live file without a writer in flight holds the serial replay of the committed operations in lock order |
| `MountRuns.HeldFileIsStable` | src/fs/wrapper.rs:192-195 | while a job holds an inode lock, no other job's step changes that file, its size or its key, short of removing it |
| `MountRuns.ReadIsSerialIffCurrent` | src/fs/wrapper.rs:183-194 | a queued read returns the slice of the committed contents if and only if its old size agrees on the blocks touched, or there is no data file; always when the size is unchanged |
| `MountRuns.FsyncIsDurable` | src/fs/wrapper.rs:464-488 | from the reply of an fsync to the next data step on that inode, durable index and durable bytes of the data file agree on key, size and the contents at the fsync, whatever else runs |
| `MountRuns.FsyncSurvivesIff` | src/fs/wrapper.rs:464-488 | after a crash in that time the file is there if and only if it is empty, its data file existed at the mount, or the crash kept the never-synced entry in data/; otherwise every read succeeds with no bytes |
| `MountRuns.DrainedRemounts` | src/fs/inner.rs:26-76 | once every job has drained and the index is clean, mounting again gives a state all of this applies to, starting from the contents reached |
| `MountRuns.CleanMeansSaved` | src/fs/inner.rs:160-187 | at every point of every run the tree is valid, and a clear dirty flag means the durable index is the tree in memory |
| `MountCompletion.AcceptedIsCommittedOrPending` | src/fs/wrapper.rs:202-353 | in every run, for an inode that stays a file, the writes and truncates pending at the start and those that arrived are, with repetition, those committed and those still pending |
| `MountCompletion.EveryAcceptedWriteCommits` | src/fs/wrapper.rs:202-353 | once the jobs have drained, exactly what was accepted has been committed |
| `MountCompletion.EndsByCarryingOut` | src/fs/wrapper.rs:169-531 | a job of any kind ends only by the step that carries it out, or because its inode is no file any more |
| `MountCompletion.TreeIsSerial` | src/fs/ops.rs:557-584 | at every point of every run the tree in memory is the serial outcome of the namespace changes and commits carried out so far: sizes of the replayed contents, and permission bits changed only by a mode |
| `MountCompletion.SavedAfter` | src/fs/inner.rs:164-187 | a sync, a successful namespace change and a committed truncate leave the index saved and the flag clear |
| `MountCompletion.RemovedHasNoFile` | src/fs/ops.rs:357-363 | what a namespace change removes from the tree has no data file afterwards, and every other data file is unchanged |
| `MountCompletion.ReadNotOvertaken` | src/fs/wrapper.rs:169-200 | a read that no commit overtakes between its dispatch and its turn returns exactly the slice of the replayed contents |
| `MountCompletion.PoolIsBounded` | src/fs/wrapper.rs:43-66 | never more jobs run than there are workers |
| `MountProgress.NeverDeadlocked` | src/fs/wrapper.rs:124-127 | in every reachable state with unfinished jobs some job can step, even with locks that let waiting writers first and with one worker |
| `MountProgress.EveryRunDrains` | src/fs/wrapper.rs:141-154 | without new arrivals every schedule has at most ten steps per job and can only stop when all jobs are done |

## Left out

- Timestamps, uid, gid, `attr_for`, `statfs`, FUSE replies, mount options, the CLI, prompts and identity files: plumbing that would only widen the state. Of the attributes only the permission bits are kept.
- The insides of XChaCha20-Poly1305, HMAC, HKDF, Argon2 and ML-KEM, and the byte layout of bincode: library code. Header lengths are those of fixed-width bincode with ML-KEM-768, the default; the 512 and 1024 builds differ only in constants.
- I/O errors in the middle of `write_range`, `truncate` or `save_index`: the code does not recover from them. A `save_index` that fails after a change leaves the dirty flag clear, so saves are taken to succeed.
- MountRuns.FsyncIsDurable: is about the bytes of the data file; `FsyncSurvivesIff` adds its directory entry, taking the entries found at the mount as durable. Nothing is said about what a crash leaves of inodes that were not synced.
- The lookup of a lock in the lock table is not a step of the machine: the table only grows, and one inode always maps to one lock.
- lookup, getattr, open, readlink and readdir are not jobs of the machine: on the dispatcher they hold the metadata lock alone, for reading.
- Flushing in `Drop`: it runs before the queue is drained (`src/fs/wrapper.rs:141-154`), so nothing is claimed about what is saved at unmount. `EveryRunDrains` covers the draining itself.
- The temporary file and rename by which `write_header` and `save_index` replace a file: outside the crash machine, which covers the two-file swap.
- That init writes its header without syncing the directory: no claim is made about a crash during init.
- Overflow of the inode counter after 2^64 creations.
- A file is never opened in the swap machine while its rename or removal is unsynced, so contents can be kept with the name.
- RekeyWhole.RekeyIsSafe: between rekeys the volume is not otherwise changed, and each rekey is given the password of the password slot; with another password the credentials change exactly as `RekeyKeepsCredentialsIff` says.
- Several processes on one backend: no lock exists between them.
- Names are taken after `to_string_lossy`; two names that collapse there are one name here.
- Secrecy, zeroization, rollback and side channels.
