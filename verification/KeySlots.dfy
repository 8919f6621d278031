/**
  The volume header: one master key, wrapped once per credential into key slots, and a
  MAC over the slot list. Init, share, revoke, passwd and rekey are transitions on the
  stored header. Salts, encapsulation coins and nonces are arguments.
 */
module KeySlots {
  import opened Prelude
  import opened SymbolicCrypto

  const HEADER_VERSION: nat := 3
  const MAX_HEADER_BYTES: nat := 262144
  const KEM_PARAM: nat := 768

  datatype Slot =
    | Password(salt: nat, kdf: Kdf, wrapped: Blob<Key>)
    | Recipient(holder: string, kemParam: nat, publicKey: nat, ciphertext: KemCiphertext, wrapped: Blob<Key>)

  datatype Mac = ZeroMac | Tag(key: Key, version: nat, volumeId: nat, slots: seq<Slot>)

  datatype Header = Header(version: nat, volumeId: nat, slots: seq<Slot>, mac: Mac)

  datatype Unlock = WithPassword(password: string) | WithIdentity(seed: nat)

  datatype PublicIdentity = PublicIdentity(param: nat, publicKey: nat)

  datatype Error =
    | NoHeader | TooLarge | WrongVersion | BadKdf | NoSlotAccepts | PasswordRequired | WrongParam
    | NoSuchSlot | LastSlot | Mismatch | EmptyPassword | BadMac | AlreadyExists

  /** The identity's public half determines it. */
  function PublicKeyOf(seed: nat): nat { seed }

  /** Parameter ranges of section 3.1 of RFC 9106. */
  predicate Argon2Accepts(kdf: Kdf) {
    && 1 <= kdf.tCost < 0x1_0000_0000 && 1 <= kdf.pCost < 0x100_0000
    && 8 * kdf.pCost <= kdf.mCost < 0x1_0000_0000
  }

  const DEFAULT_KDF: Kdf := Kdf(131072, 3, 1)

  // ---- Unlocking ----

  /** Decapsulating with another identity yields an unrelated key, not an error. */
  function Decapsulate(seed: nat, ciphertext: KemCiphertext): Key {
    if ciphertext.publicKey == PublicKeyOf(seed) then Encapsulated(ciphertext.publicKey, ciphertext.coins)
    else Rejected(seed, ciphertext)
  }

  function TrySlot(header: Header, slot: Slot, credential: Unlock): Result<Option<Key>, Error> {
    match (slot, credential)
    case (Password(salt, kdf, wrapped), WithPassword(password)) =>
      if Argon2Accepts(kdf) then Ok(Open(FromPassword(password, salt, kdf), VolumeId(header.volumeId), wrapped))
        else Err(BadKdf)
    case (Recipient(_, _, _, ciphertext, wrapped), WithIdentity(seed)) =>
      if ciphertext.param == KEM_PARAM then Ok(Open(Decapsulate(seed, ciphertext), VolumeId(header.volumeId), wrapped))
        else Ok(None)
    case _ => Ok(None)
  }

  /** The first slot from `i` on that accepts the credential or cannot be tried. */
  function OpenFrom(header: Header, i: nat, credential: Unlock): Result<Key, Error>
    requires i <= |header.slots|
    decreases |header.slots| - i
  {
    if i == |header.slots| then Err(NoSlotAccepts)
    else match TrySlot(header, header.slots[i], credential)
      case Err(e) => Err(e)
      case Ok(Some(key)) => Ok(key)
      case Ok(None) => OpenFrom(header, i + 1, credential)
  }

  method OpenMasterKey(header: Header, credential: Unlock) returns (r: Result<Key, Error>)
    ensures r == OpenFrom(header, 0, credential)
    ensures forall master :: HeaderOk(header, master) ==>
      r == if OpenedBy(header, credential) then Ok(master) else Err(NoSlotAccepts)
  {
    forall master | HeaderOk(header, master) ensures OpenFrom(header, 0, credential) == if OpenedBy(header, credential)
      then Ok(master) else Err(NoSlotAccepts) {
      OwnersOpen(header, master, 0, credential);
    }
    hide HeaderOk, OpenedBy;
    var i := 0;
    while i < |header.slots|
      invariant 0 <= i <= |header.slots|
      invariant OpenFrom(header, 0, credential) == OpenFrom(header, i, credential)
    {
      var tried := TrySlot(header, header.slots[i], credential);
      match tried {
        case Err(e) => return Err(e);
        case Ok(Some(key)) => return Ok(key);
        case Ok(None) =>
      }
      i := i + 1;
    }
    r := Err(NoSlotAccepts);
  }

  // ---- Building slots ----

  function PasswordSlot(password: string, volumeId: nat, master: Key, kdf: Kdf, salt: nat, nonce: nat)
    : Result<Slot, Error>
  {
    if Argon2Accepts(kdf) then
      Ok(Password(salt, kdf, Sealed(FromPassword(password, salt, kdf), nonce, VolumeId(volumeId), master)))
    else Err(BadKdf)
  }

  function RecipientSlot(to: PublicIdentity, holder: string, volumeId: nat, master: Key, coins: nat,
    nonce: nat): Result<Slot, Error> {
    if to.param == KEM_PARAM then
      Ok(Recipient(holder, to.param, to.publicKey, KemCiphertext(KEM_PARAM, to.publicKey, coins),
                   Sealed(Encapsulated(to.publicKey, coins), nonce, VolumeId(volumeId), master)))
    else Err(WrongParam)
  }

  function MacOf(header: Header, master: Key): Mac {
    Tag(HeaderMacKey(master), header.version, header.volumeId, header.slots)
  }

  function SealHeader(header: Header, master: Key): Header {
    header.(mac := MacOf(header, master))
  }

  // ---- Serialized size (bincode, fixed-width integers, ML-KEM-768) ----

  function SlotLen(slot: Slot): nat {
    match slot
    case Password(_, _, _) => 112
    case Recipient(holder, _, _, _, _) => 2382 + Utf8Len(holder)
  }

  function SlotsLen(slots: seq<Slot>): nat {
    if slots == [] then 0 else SlotsLen(slots[..|slots| - 1]) + SlotLen(slots[|slots| - 1])
  }

  function HeaderLen(header: Header): nat { 60 + SlotsLen(header.slots) }

  function ReadHeader(stored: Option<Header>): Result<Header, Error> {
    match stored
    case None => Err(NoHeader)
    case Some(header) =>
      if HeaderLen(header) > MAX_HEADER_BYTES then Err(TooLarge)
      else if header.version != HEADER_VERSION then Err(WrongVersion)
      else Ok(header)
  }

  // ---- Invariant and credentials ----

  /** The slot wraps `master`, bound to this volume, for exactly one credential. */
  predicate SlotOk(slot: Slot, volumeId: nat, master: Key) {
    && slot.wrapped.Sealed? && slot.wrapped.aad == VolumeId(volumeId) && slot.wrapped.message == master
    && match slot
       case Password(salt, kdf, wrapped) =>
         Argon2Accepts(kdf) && wrapped.key.FromPassword? && wrapped.key == FromPassword(wrapped.key.password, salt, kdf)
       case Recipient(_, kemParam, publicKey, ciphertext, wrapped) =>
         && kemParam == KEM_PARAM && ciphertext.param == KEM_PARAM && ciphertext.publicKey == publicKey
         && wrapped.key == Encapsulated(publicKey, ciphertext.coins)
  }

  predicate AtMostOnePassword(slots: seq<Slot>) {
    forall i, j | 0 <= i < j < |slots| :: !(slots[i].Password? && slots[j].Password?)
  }

  predicate SlotsOk(slots: seq<Slot>, volumeId: nat, master: Key) {
    forall i | 0 <= i < |slots| :: SlotOk(slots[i], volumeId, master)
  }

  predicate HeaderOk(header: Header, master: Key) {
    && header.version == HEADER_VERSION
    && |header.slots| >= 1
    && AtMostOnePassword(header.slots)
    && SlotsOk(header.slots, header.volumeId, master)
    && header.mac == MacOf(header, master)
  }

  /** The one credential a well-formed slot is for. */
  predicate OwnedBy(slot: Slot, credential: Unlock) {
    match (slot, credential)
    case (Password(_, _, wrapped), WithPassword(password)) => wrapped.Sealed? && wrapped.key.FromPassword? &&
      wrapped.key.password == password
    case (Recipient(_, _, publicKey, _, _), WithIdentity(seed)) => publicKey == PublicKeyOf(seed)
    case _ => false
  }

  predicate OpenedBy(header: Header, credential: Unlock) {
    exists i :: 0 <= i < |header.slots| && OwnedBy(header.slots[i], credential)
  }

  lemma OwnerOpens(header: Header, slot: Slot, master: Key, credential: Unlock)
    requires SlotOk(slot, header.volumeId, master)
    ensures TrySlot(header, slot, credential) == Ok(if OwnedBy(slot, credential) then Some(master) else None)
  {
  }

  /** A slot made for one volume opens nothing in another, for anybody. */
  lemma TransplantedSlotOpensNothing(header: Header, slot: Slot, volumeId: nat, master: Key, credential: Unlock)
    requires SlotOk(slot, volumeId, master) && volumeId != header.volumeId
    ensures TrySlot(header, slot, credential) == Ok(None)
  {
  }

  /** A credential opens the volume exactly when it owns a slot, and always to the same key. */
  lemma {:induction false} OwnersOpen(header: Header, master: Key, i: nat, credential: Unlock)
    requires SlotsOk(header.slots, header.volumeId, master) && i <= |header.slots|
    ensures OpenFrom(header, i, credential) ==
      if exists k :: i <= k < |header.slots| && OwnedBy(header.slots[k], credential) then Ok(master)
        else Err(NoSlotAccepts)
    decreases |header.slots| - i
  {
    hide SlotOk, OwnedBy, TrySlot;
    if i < |header.slots| {
      OwnerOpens(header, header.slots[i], master, credential);
      OwnersOpen(header, master, i + 1, credential);
    }
  }

  /** On any header, the first slot that accepts the credential or cannot be tried decides. */
  lemma {:induction false} FirstAnswerDecides(header: Header, credential: Unlock, i: nat, k: nat)
    requires i <= k < |header.slots| && TrySlot(header, header.slots[k], credential) != Ok(None)
    requires forall j | i <= j < k :: TrySlot(header, header.slots[j], credential) == Ok(None)
    ensures OpenFrom(header, i, credential) ==
      match TrySlot(header, header.slots[k], credential) case Ok(Some(key)) => Ok(key) case Err(e) => Err(e)
    decreases k - i
  {
    hide TrySlot;
    if i < k { FirstAnswerDecides(header, credential, i + 1, k); }
  }

  /** A password slot whose KDF parameters are out of range cannot be tried. */
  lemma BadKdfCannotBeTried(header: Header, slot: Slot, password: string)
    requires slot.Password? && !Argon2Accepts(slot.kdf)
    ensures TrySlot(header, slot, WithPassword(password)) == Err(BadKdf)
  {
  }

  /** The order of the slots does not matter to anyone. */
  lemma SlotOrderIsIrrelevant(header: Header, header': Header, master: Key, credential: Unlock)
    requires HeaderOk(header, master) && header'.volumeId == header.volumeId
    requires multiset(header'.slots) == multiset(header.slots)
    ensures OpenFrom(header', 0, credential) == OpenFrom(header, 0, credential)
  {
    hide OwnedBy, SlotOk;
    forall k | 0 <= k < |header'.slots| ensures SlotOk(header'.slots[k], header'.volumeId, master) {
      assert header'.slots[k] in multiset(header.slots);
    }
    OwnersOpen(header, master, 0, credential);
    OwnersOpen(header', master, 0, credential);
    if k :| 0 <= k < |header.slots| && OwnedBy(header.slots[k], credential) {
      assert header.slots[k] in multiset(header'.slots);
    }
    if k :| 0 <= k < |header'.slots| && OwnedBy(header'.slots[k], credential) {
      assert header'.slots[k] in multiset(header.slots);
    }
  }
}
