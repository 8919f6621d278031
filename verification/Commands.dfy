/** The commands that change a volume's key slots, and every run of them. */
module Commands {
  import opened Prelude
  import opened SymbolicCrypto
  import opened KeySlots

  /** `--password` and `--identity`, after a missing credential has been prompted for. */
  datatype CredentialArgs = CredentialArgs(password: Option<string>, identity: Option<nat>)

  /** Fresh randomness for each rewrapped slot. */
  datatype Draw = Draw(salt: nat -> nat, coins: nat -> nat, nonce: nat -> nat)

  datatype Command =
    | Share(args: CredentialArgs, to: PublicIdentity, holder: string, coins: nat, nonce: nat)
    | Revoke(args: CredentialArgs, slot: nat)
    | Passwd(args: CredentialArgs, password: string, repeated: string, salt: nat, nonce: nat)
    | Rekey(args: CredentialArgs, newMaster: Key, draw: Draw)

  function RequirePassword(args: CredentialArgs): Result<string, Error> {
    if args.password.Some? && args.password.value != "" then Ok(args.password.value) else Err(PasswordRequired)
  }

  /** An identity takes precedence over a password. */
  function UnlockOf(args: CredentialArgs): Result<Unlock, Error> {
    if args.identity.Some? then Ok(WithIdentity(args.identity.value))
    else match RequirePassword(args)
      case Ok(password) => Ok(WithPassword(password))
      case Err(e) => Err(e)
  }

  /** Read the stored header and open its master key. */
  function Unlocked(stored: Option<Header>, args: CredentialArgs): Result<(Header, Key), Error> {
    match ReadHeader(stored)
    case Err(e) => Err(e)
    case Ok(header) =>
      match UnlockOf(args)
      case Err(e) => Err(e)
      case Ok(credential) =>
        match OpenFrom(header, 0, credential)
        case Err(e) => Err(e)
        case Ok(master) => Ok((header, master))
  }

  /** The position of the first password slot, or the length. */
  function PasswordAt(slots: seq<Slot>, i: nat): (r: nat)
    requires i <= |slots|
    ensures i <= r <= |slots| && (r < |slots| ==> slots[r].Password?)
    ensures forall k | i <= k < r :: !slots[k].Password?
    decreases |slots| - i
  {
    if i == |slots| || slots[i].Password? then i else PasswordAt(slots, i + 1)
  }

  function RewrapSlot(slot: Slot, args: CredentialArgs, volumeId: nat, master: Key, draw: Draw, i: nat)
    : Result<Slot, Error>
  {
    match slot
    case Password(_, kdf, _) =>
      (match RequirePassword(args)
       case Err(e) => Err(e)
       case Ok(password) => PasswordSlot(password, volumeId, master, kdf, draw.salt(i), draw.nonce(i)))
    case Recipient(holder, kemParam, publicKey, _, _) =>
      RecipientSlot(PublicIdentity(kemParam, publicKey), holder, volumeId, master, draw.coins(i), draw.nonce(i))
  }

  function RewrapSlots(slots: seq<Slot>, args: CredentialArgs, volumeId: nat, master: Key, draw: Draw)
    : Result<seq<Slot>, Error>
  {
    if slots == [] then Ok([])
    else
      var last := |slots| - 1;
      match RewrapSlots(slots[..last], args, volumeId, master, draw)
      case Err(e) => Err(e)
      case Ok(earlier) =>
        match RewrapSlot(slots[last], args, volumeId, master, draw, last)
        case Err(e) => Err(e)
        case Ok(slot) => Ok(earlier + [slot])
  }

  /** The header a command leaves in place of the stored one, or why it refuses. */
  function Execute(stored: Option<Header>, command: Command): Result<Header, Error> {
    match Unlocked(stored, command.args)
    case Err(e) => Err(e)
    case Ok((header, master)) =>
      match command
      case Share(_, to, holder, coins, nonce) =>
        (match RecipientSlot(to, holder, header.volumeId, master, coins, nonce)
         case Err(e) => Err(e)
         case Ok(slot) => Ok(SealHeader(header.(slots := header.slots + [slot]), master)))
      case Revoke(_, slot) =>
        if slot >= |header.slots| then Err(NoSuchSlot)
        else if |header.slots| == 1 then Err(LastSlot)
        else Ok(SealHeader(header.(slots := header.slots[..slot] + header.slots[slot + 1..]), master))
      case Passwd(_, password, repeated, salt, nonce) =>
        if password != repeated then Err(Mismatch)
        else if password == "" then Err(EmptyPassword)
        else
          var at := PasswordAt(header.slots, 0);
          var kdf := if at < |header.slots| then header.slots[at].kdf else DEFAULT_KDF;
          (match PasswordSlot(password, header.volumeId, master, kdf, salt, nonce)
           case Err(e) => Err(e)
           case Ok(slot) =>
             Ok(SealHeader(header.(slots := if at < |header.slots| then header.slots[at := slot]
               else header.slots + [slot]), master)))
      case Rekey(args, newMaster, draw) =>
        if header.mac != MacOf(header, master) then Err(BadMac)
        else
          match RewrapSlots(header.slots, args, header.volumeId, newMaster, draw)
          case Err(e) => Err(e)
          case Ok(slots) => Ok(SealHeader(header.(slots := slots), newMaster))
  }

  /** The header `init` writes. */
  function InitHeader(password: string, volumeId: nat, master: Key, salt: nat, nonce: nat): Header {
    SealHeader(Header(HEADER_VERSION, volumeId, [PasswordSlot(password, volumeId, master, DEFAULT_KDF, salt,
      nonce).value], ZeroMac), master)
  }

  /** A new volume is well formed, readable, and opened by exactly the given password. */
  lemma InitIsWellFormed(password: string, volumeId: nat, master: Key, salt: nat, nonce: nat)
    ensures var header := InitHeader(password, volumeId, master, salt, nonce);
            && WellFormed(header) && MasterOf(header) == master && header.volumeId == volumeId
            && ReadHeader(Some(header)) == Ok(header)
            && |header.slots| == 1 && header.slots[0].Password? && header.slots[0].kdf == DEFAULT_KDF
            && forall credential :: OpenedBy(header, credential) <==> credential == WithPassword(password)
  {
    var header := InitHeader(password, volumeId, master, salt, nonce);
    SealedIsWellFormed(header.(mac := ZeroMac), master);
    assert header.slots[..0] == [];
    assert SlotsLen(header.slots) == SlotsLen([]) + SlotLen(header.slots[0]);
    assert OwnedBy(header.slots[0], WithPassword(password));
  }

  /** The backend as the slot commands see it. */
  class Volume {
    var stored: Option<Header>

    /** A backend directory, with or without a header file. */
    constructor (stored: Option<Header>)
      ensures this.stored == stored
    {
      this.stored := stored;
    }

    method Init(password: string, volumeId: nat, master: Key, salt: nat, nonce: nat) returns (r: Result<(), Error>)
      modifies this
      ensures old(stored).Some? ==> r == Err(AlreadyExists) && stored == old(stored)
      ensures old(stored).None? ==> r == Ok(()) && stored == Some(InitHeader(password, volumeId, master, salt, nonce))
    {
      if stored.Some? {
        return Err(AlreadyExists);
      }
      var slot := PasswordSlot(password, volumeId, master, DEFAULT_KDF, salt, nonce);
      var header := Header(HEADER_VERSION, volumeId, [slot.value], ZeroMac);
      header := SealHeader(header, master);
      stored := Some(header);
      r := Ok(());
    }

    method OpenVolume(args: CredentialArgs) returns (r: Result<(Header, Key), Error>)
      ensures r == Unlocked(stored, args)
    {
      var header := ReadHeader(stored);
      if header.Err? {
        return Err(header.error);
      }
      var credential := UnlockOf(args);
      if credential.Err? {
        return Err(credential.error);
      }
      var master := OpenMasterKey(header.value, credential.value);
      if master.Err? {
        return Err(master.error);
      }
      r := Ok((header.value, master.value));
    }

    /** The same with the header's MAC checked, as mounting and rekeying do. */
    method Unlock(args: CredentialArgs) returns (r: Result<(Header, Key), Error>)
      ensures r == match Unlocked(stored, args)
                   case Err(e) => Err(e)
                   case Ok((header, master)) => if header.mac == MacOf(header, master) then Ok((header, master))
                     else Err(BadMac)
      ensures stored.Some? && WellFormed(stored.value) ==> r == Unlocked(stored, args)
    {
      r := OpenVolume(args);
      if r.Ok? && r.value.0.mac != MacOf(r.value.0, r.value.1) {
        r := Err(BadMac);
      }
      if stored.Some? && WellFormed(stored.value) && Unlocked(stored, args).Ok? {
        UnlockedIsMaster(stored.value, args);
      }
    }

    method Share(args: CredentialArgs, to: PublicIdentity, holder: string, coins: nat, nonce: nat)
      returns (r: Result<(), Error>)
      modifies this
      ensures Outcome(old(stored), Command.Share(args, to, holder, coins, nonce), stored, r)
    {
      var access := OpenVolume(args);
      if access.Err? {
        return Err(access.error);
      }
      var (header, master) := access.value;
      var slot := RecipientSlot(to, holder, header.volumeId, master, coins, nonce);
      if slot.Err? {
        return Err(slot.error);
      }
      header := header.(slots := header.slots + [slot.value]);
      stored := Some(SealHeader(header, master));
      r := Ok(());
    }

    method Revoke(args: CredentialArgs, slot: nat) returns (r: Result<(), Error>)
      modifies this
      ensures Outcome(old(stored), Command.Revoke(args, slot), stored, r)
    {
      var access := OpenVolume(args);
      if access.Err? {
        return Err(access.error);
      }
      var (header, master) := access.value;
      if slot >= |header.slots| {
        return Err(NoSuchSlot);
      }
      if |header.slots| == 1 {
        return Err(LastSlot);
      }
      header := header.(slots := header.slots[..slot] + header.slots[slot + 1..]);
      stored := Some(SealHeader(header, master));
      r := Ok(());
    }

    method Passwd(args: CredentialArgs, password: string, repeated: string, salt: nat, nonce: nat)
      returns (r: Result<(), Error>)
      modifies this
      ensures Outcome(old(stored), Command.Passwd(args, password, repeated, salt, nonce), stored, r)
    {
      var access := OpenVolume(args);
      if access.Err? {
        return Err(access.error);
      }
      var (header, master) := access.value;
      if password != repeated {
        return Err(Mismatch);
      }
      if password == "" {
        return Err(EmptyPassword);
      }
      var at := PasswordAt(header.slots, 0);
      var kdf := if at < |header.slots| then header.slots[at].kdf else DEFAULT_KDF;
      var slot := PasswordSlot(password, header.volumeId, master, kdf, salt, nonce);
      if slot.Err? {
        return Err(slot.error);
      }
      if at < |header.slots| {
        header := header.(slots := header.slots[at := slot.value]);
      } else {
        header := header.(slots := header.slots + [slot.value]);
      }
      stored := Some(SealHeader(header, master));
      r := Ok(());
    }

    method Rekey(args: CredentialArgs, newMaster: Key, draw: Draw) returns (r: Result<(), Error>)
      modifies this
      ensures Outcome(old(stored), Command.Rekey(args, newMaster, draw), stored, r)
    {
      var access := Unlock(args);
      if access.Err? {
        return Err(access.error);
      }
      var (header, _) := access.value;
      var slots := [];
      var i := 0;
      while i < |header.slots|
        invariant 0 <= i <= |header.slots|
        invariant RewrapSlots(header.slots[..i], args, header.volumeId, newMaster, draw) == Ok(slots)
      {
        hide RewrapSlot;
        assert header.slots[..i + 1][..i] == header.slots[..i];
        var slot := RewrapSlot(header.slots[i], args, header.volumeId, newMaster, draw, i);
        if slot.Err? {
          RewrapFails(header.slots, args, header.volumeId, newMaster, draw, i, slot.error);
          return Err(slot.error);
        }
        slots := slots + [slot.value];
        i := i + 1;
      }
      assert header.slots[..|header.slots|] == header.slots;
      header := header.(slots := slots);
      stored := Some(SealHeader(header, newMaster));
      r := Ok(());
    }
  }

  /** The command did what `Execute` says, or refused and changed nothing. */
  ghost predicate Outcome(before: Option<Header>, command: Command, after: Option<Header>, r: Result<(), Error>) {
    match Execute(before, command)
    case Ok(header) => r == Ok(()) && after == Some(header)
    case Err(e) => r == Err(e) && after == before
  }

  lemma {:induction false} RewrapFails(slots: seq<Slot>, args: CredentialArgs, volumeId: nat, master: Key, draw: Draw,
    i: nat, e: Error)
    requires i < |slots| && RewrapSlots(slots[..i], args, volumeId, master, draw).Ok?
    requires RewrapSlot(slots[i], args, volumeId, master, draw, i) == Err(e)
    ensures RewrapSlots(slots, args, volumeId, master, draw) == Err(e)
    decreases |slots|
  {
    var last := |slots| - 1;
    if i == last {
    } else {
      assert slots[..last][..i] == slots[..i];
      RewrapFails(slots[..last], args, volumeId, master, draw, i, e);
    }
  }

  // ---- Every command keeps the header well-formed ----

  /** The master key of a well-formed header. */
  function MasterOf(header: Header): Key
    requires |header.slots| >= 1 && header.slots[0].wrapped.Sealed?
  {
    header.slots[0].wrapped.message
  }

  predicate WellFormed(header: Header) {
    |header.slots| >= 1 && header.slots[0].wrapped.Sealed? && HeaderOk(header, MasterOf(header))
  }

  lemma UnlockedIsMaster(header: Header, args: CredentialArgs)
    requires WellFormed(header) && Unlocked(Some(header), args).Ok?
    ensures Unlocked(Some(header), args).value == (header, MasterOf(header))
    ensures UnlockOf(args).Ok? && OpenedBy(header, UnlockOf(args).value)
  {
    OwnersOpen(header, MasterOf(header), 0, UnlockOf(args).value);
    hide SlotOk, OwnedBy, TrySlot;
  }

  lemma SealedIsWellFormed(header: Header, master: Key)
    requires header.version == HEADER_VERSION && |header.slots| >= 1
    requires AtMostOnePassword(header.slots) && SlotsOk(header.slots, header.volumeId, master)
    ensures WellFormed(SealHeader(header, master)) && MasterOf(SealHeader(header, master)) == master
  {
    assert SlotOk(header.slots[0], header.volumeId, master);
  }

  /** Slot `i` was rewrapped to the new key for a holder of the same kind. */
  predicate RewrappedSlot(slot: Slot, slot': Slot, args: CredentialArgs, volumeId: nat, master: Key) {
    && SlotOk(slot', volumeId, master)
    && slot'.Password? == slot.Password?
    && (slot.Recipient? ==> slot'.publicKey == slot.publicKey && slot'.holder == slot.holder)
    && (slot.Password? ==>
          && slot'.kdf == slot.kdf
          && RequirePassword(args).Ok? && OwnedBy(slot', WithPassword(RequirePassword(args).value)))
  }

  lemma {:induction false} RewrapSlotsOk(slots: seq<Slot>, args: CredentialArgs, volumeId: nat, master: Key, draw: Draw)
    requires RewrapSlots(slots, args, volumeId, master, draw).Ok?
    ensures var slots' := RewrapSlots(slots, args, volumeId, master, draw).value;
            && |slots'| == |slots|
            && forall i | 0 <= i < |slots| :: RewrappedSlot(slots[i], slots'[i], args, volumeId, master)
    decreases |slots|
  {
    if slots != [] {
      var last := |slots| - 1;
      RewrapSlotsOk(slots[..last], args, volumeId, master, draw);
      var slots' := RewrapSlots(slots, args, volumeId, master, draw).value;
      assert RewrappedSlot(slots[last], slots'[last], args, volumeId, master);
      hide RewrappedSlot, RewrapSlot;
      var earlier := RewrapSlots(slots[..last], args, volumeId, master, draw).value;
      forall i | 0 <= i < last ensures RewrappedSlot(slots[i], slots'[i], args, volumeId, master) {
        assert slots'[i] == earlier[i] && slots[..last][i] == slots[i];
      }
    }
  }

  lemma RevokeOk(slots: seq<Slot>, at: nat, volumeId: nat, master: Key)
    requires at < |slots| && AtMostOnePassword(slots) && SlotsOk(slots, volumeId, master)
    ensures AtMostOnePassword(slots[..at] + slots[at + 1..]) && SlotsOk(slots[..at] + slots[at + 1..], volumeId, master)
  {
    hide SlotOk;
    var rest := slots[..at] + slots[at + 1..];
    assert forall i | 0 <= i < |rest| :: rest[i] == slots[if i < at then i else i + 1];
  }

  lemma PasswdOk(slots: seq<Slot>, slot: Slot, volumeId: nat, master: Key)
    requires AtMostOnePassword(slots) && SlotsOk(slots, volumeId, master) && SlotOk(slot, volumeId, master) &&
      slot.Password?
    ensures var at := PasswordAt(slots, 0);
            var slots' := if at < |slots| then slots[at := slot] else slots + [slot];
            AtMostOnePassword(slots') && SlotsOk(slots', volumeId, master)
  {
    hide SlotOk;
  }

  lemma ShareOk(slots: seq<Slot>, slot: Slot, volumeId: nat, master: Key)
    requires AtMostOnePassword(slots) && SlotsOk(slots, volumeId, master) && SlotOk(slot, volumeId, master) &&
      slot.Recipient?
    ensures AtMostOnePassword(slots + [slot]) && SlotsOk(slots + [slot], volumeId, master)
  {
    hide SlotOk;
  }

  lemma RekeyOk(slots: seq<Slot>, args: CredentialArgs, volumeId: nat, master: Key, draw: Draw)
    requires AtMostOnePassword(slots) && RewrapSlots(slots, args, volumeId, master, draw).Ok?
    ensures var slots' := RewrapSlots(slots, args, volumeId, master, draw).value;
            |slots'| == |slots| && AtMostOnePassword(slots') && SlotsOk(slots', volumeId, master)
  {
    hide SlotOk, RewrapSlots, RequirePassword, OwnedBy;
    RewrapSlotsOk(slots, args, volumeId, master, draw);
    var slots' := RewrapSlots(slots, args, volumeId, master, draw).value;
    forall i | 0 <= i < |slots'| ensures slots'[i].Password? == slots[i].Password? &&
      SlotOk(slots'[i], volumeId, master) {
      assert RewrappedSlot(slots[i], slots'[i], args, volumeId, master);
    }
  }

  /**
    A command that succeeds leaves a well-formed header of the same volume. Only rekey
    changes the master key, and it changes it to the new one.
   */
  lemma CommandKeepsHeader(header: Header, command: Command)
    requires WellFormed(header) && Execute(Some(header), command).Ok?
    ensures var header' := Execute(Some(header), command).value;
            && WellFormed(header') && header'.volumeId == header.volumeId
            && MasterOf(header') == if command.Rekey? then command.newMaster else MasterOf(header)
  {
    hide TrySlot, OpenFrom, OpenedBy, AtMostOnePassword, SlotsOk, RewrapSlots;
    UnlockedIsMaster(header, command.args);
    hide Unlocked;
    var master := MasterOf(header);
    var header' := Execute(Some(header), command).value;
    match command
    case Share(_, to, holder, coins, nonce) =>
      ShareOk(header.slots, RecipientSlot(to, holder, header.volumeId, master, coins, nonce).value, header.volumeId,
        master);
      SealedIsWellFormed(header.(slots := header'.slots), master);
    case Revoke(_, slot) =>
      RevokeOk(header.slots, slot, header.volumeId, master);
      SealedIsWellFormed(header.(slots := header'.slots), master);
    case Passwd(_, password, _, salt, nonce) =>
      var at := PasswordAt(header.slots, 0);
      var kdf := if at < |header.slots| then header.slots[at].kdf else DEFAULT_KDF;
      PasswdOk(header.slots, PasswordSlot(password, header.volumeId, master, kdf, salt, nonce).value, header.volumeId,
        master);
      SealedIsWellFormed(header.(slots := header'.slots), master);
    case Rekey(args, newMaster, draw) =>
      RekeyOk(header.slots, args, header.volumeId, newMaster, draw);
      SealedIsWellFormed(header.(slots := header'.slots), newMaster);
  }

  function Run(header: Header, commands: seq<Command>): Header {
    if commands == [] then header
    else
      var earlier := Run(header, commands[..|commands| - 1]);
      match Execute(Some(earlier), commands[|commands| - 1])
      case Ok(header') => header'
      case Err(_) => earlier
  }

  /**
    From any well-formed header, every run of commands, refused ones included, keeps at
    least one slot, at most one password slot, every slot wrapping the one master key of
    this volume, and a valid MAC.
   */
  lemma {:induction false} RunKeepsHeader(header: Header, commands: seq<Command>)
    requires WellFormed(header)
    ensures WellFormed(Run(header, commands)) && Run(header, commands).volumeId == header.volumeId
    decreases |commands|
  {
    hide WellFormed, Execute;
    if commands != [] {
      var earlier := Run(header, commands[..|commands| - 1]);
      RunKeepsHeader(header, commands[..|commands| - 1]);
      if Execute(Some(earlier), commands[|commands| - 1]).Ok? {
        CommandKeepsHeader(earlier, commands[|commands| - 1]);
      }
    }
  }

  // ---- Who can open the volume ----

  ghost predicate SameCredentials(header: Header, header': Header) {
    forall credential :: OpenedBy(header', credential) <==> OpenedBy(header, credential)
  }

  /** What a command that changes the slot list leaves to be opened, and by whom. */
  lemma NewSlots(header: Header, command: Command)
    requires WellFormed(header) && Execute(Some(header), command).Ok? && !command.Rekey?
    ensures var slots, slots', master := header.slots, Execute(Some(header), command).value.slots, MasterOf(header);
            match command
            case Share(_, to, holder, coins, nonce) =>
              var slot := RecipientSlot(to, holder, header.volumeId, master, coins, nonce);
              slot.Ok? && slots' == slots + [slot.value]
            case Revoke(_, at) => at < |slots| && slots' == slots[..at] + slots[at + 1..]
            case Passwd(_, password, _, salt, nonce) =>
              var at := PasswordAt(slots, 0);
              var kdf := if at < |slots| then slots[at].kdf else DEFAULT_KDF;
              var slot := PasswordSlot(password, header.volumeId, master, kdf, salt, nonce);
              slot.Ok? && slots' == if at < |slots| then slots[at := slot.value] else slots + [slot.value]
            case Rekey(_, _, _) => true
  {
    hide TrySlot, OpenFrom, OpenedBy, RecipientSlot, PasswordSlot, HeaderOk;
    UnlockedIsMaster(header, command.args);
    hide Unlocked;
  }

  /** Sharing admits the holder of the given public key and shuts nobody out. */
  lemma ShareAdmits(header: Header, command: Command, credential: Unlock)
    requires WellFormed(header) && Execute(Some(header), command).Ok? && command.Share?
    ensures OpenedBy(Execute(Some(header), command).value, credential) <==>
      OpenedBy(header, credential) || (credential.WithIdentity? && PublicKeyOf(credential.seed) == command.to.publicKey)
  {
    hide Execute, WellFormed;
    NewSlots(header, command);
    var slots, slots' := header.slots, Execute(Some(header), command).value.slots;
    assert OwnedBy(slots'[|slots|], credential) <==>
      credential.WithIdentity? && PublicKeyOf(credential.seed) == command.to.publicKey;
    hide OwnedBy;
    assert forall i | 0 <= i < |slots| :: slots'[i] == slots[i];
  }

  /** Revoking slot `at` leaves exactly those who own another slot. */
  lemma RevokeShutsOut(header: Header, command: Command, credential: Unlock)
    requires WellFormed(header) && Execute(Some(header), command).Ok? && command.Revoke?
    ensures OpenedBy(Execute(Some(header), command).value, credential) <==>
      exists i :: 0 <= i < |header.slots| && i != command.slot && OwnedBy(header.slots[i], credential)
  {
    hide Execute, WellFormed, OwnedBy;
    NewSlots(header, command);
    var at, slots, slots' := command.slot, header.slots, Execute(Some(header), command).value.slots;
    assert forall i | 0 <= i < |slots'| :: slots'[i] == slots[if i < at then i else i + 1];
    if i :| 0 <= i < |slots| && i != at && OwnedBy(slots[i], credential) {
      assert slots'[if i < at then i else i - 1] == slots[i];
    }
  }

  /** A new password replaces the old one and leaves the recipients alone. */
  lemma PasswdReplaces(header: Header, command: Command, credential: Unlock)
    requires WellFormed(header) && Execute(Some(header), command).Ok? && command.Passwd?
    ensures OpenedBy(Execute(Some(header), command).value, credential) <==>
      credential == WithPassword(command.password) || (credential.WithIdentity? && OpenedBy(header, credential))
  {
    hide Execute;
    NewSlots(header, command);
    var slots, slots', at := header.slots, Execute(Some(header), command).value.slots, PasswordAt(header.slots, 0);
    assert AtMostOnePassword(slots);
    hide WellFormed;
    assert at < |slots'| && (OwnedBy(slots'[at], credential) <==> credential == WithPassword(command.password));
    forall i | 0 <= i < |slots| && i != at ensures slots'[i] == slots[i] && !slots[i].Password? {
    }
  }

  /** The password a rekey is given is the password of the slot it rewraps, if there is one. */
  predicate RewrapsSamePassword(header: Header, args: CredentialArgs) {
    forall i | 0 <= i < |header.slots| && header.slots[i].Password? ::
      RequirePassword(args).Ok? && OwnedBy(header.slots[i], WithPassword(RequirePassword(args).value))
  }

  /** After a rekey, slot by slot: recipients keep access, a password slot takes the given password. */
  lemma RekeyOwners(header: Header, args: CredentialArgs, newMaster: Key, draw: Draw, i: nat, credential: Unlock)
    requires WellFormed(header) && Execute(Some(header), Rekey(args, newMaster, draw)).Ok? && i < |header.slots|
    ensures var header' := Execute(Some(header), Rekey(args, newMaster, draw)).value;
            && |header'.slots| == |header.slots|
            && (OwnedBy(header'.slots[i], credential) <==>
                  if header.slots[i].Password? then RequirePassword(args).Ok? &&
                    credential == WithPassword(RequirePassword(args).value)
                  else OwnedBy(header.slots[i], credential))
  {
    hide RewrapSlots, RewrapSlot, TrySlot, OpenFrom, HeaderOk;
    UnlockedIsMaster(header, args);
    RewrapSlotsOk(header.slots, args, header.volumeId, newMaster, draw);
    var slots' := RewrapSlots(header.slots, args, header.volumeId, newMaster, draw).value;
    assert RewrappedSlot(header.slots[i], slots'[i], args, header.volumeId, newMaster);
  }

  /**
    A rekey preserves exactly who can open the volume if and only if the password it was
    given is the one of the password slot (or there is none).
   */
  lemma RekeyKeepsCredentialsIff(header: Header, args: CredentialArgs, newMaster: Key, draw: Draw)
    requires WellFormed(header) && Execute(Some(header), Rekey(args, newMaster, draw)).Ok?
    ensures SameCredentials(header, Execute(Some(header), Rekey(args, newMaster, draw)).value) <==>
      RewrapsSamePassword(header, args)
  {
    hide Execute, RequirePassword, SlotOk;
    var header' := Execute(Some(header), Rekey(args, newMaster, draw)).value;
    if RewrapsSamePassword(header, args) {
      forall credential ensures OpenedBy(header', credential) <==> OpenedBy(header, credential) {
        forall i | 0 <= i < |header.slots| ensures |header'.slots| == |header.slots| &&
          (OwnedBy(header'.slots[i], credential) <==> OwnedBy(header.slots[i], credential)) {
          RekeyOwners(header, args, newMaster, draw, i, credential);
        }
      }
    } else {
      var i :| 0 <= i < |header.slots| && header.slots[i].Password? &&
        !(RequirePassword(args).Ok? && OwnedBy(header.slots[i], WithPassword(RequirePassword(args).value)));
      RekeyTakesNewPassword(header, args, newMaster, draw, i);
    }
  }

  /** A password that was not the slot's opens the rekeyed volume but did not open the old one. */
  lemma RekeyTakesNewPassword(header: Header, args: CredentialArgs, newMaster: Key, draw: Draw, i: nat)
    requires WellFormed(header) && Execute(Some(header), Rekey(args, newMaster, draw)).Ok?
    requires i < |header.slots| && header.slots[i].Password?
    requires !(RequirePassword(args).Ok? && OwnedBy(header.slots[i], WithPassword(RequirePassword(args).value)))
    ensures !SameCredentials(header, Execute(Some(header), Rekey(args, newMaster, draw)).value)
  {
    hide SlotOk, TrySlot, OpenFrom;
    UnlockedIsMaster(header, args);
    RewrapSlotsOk(header.slots, args, header.volumeId, newMaster, draw);
    var slots' := RewrapSlots(header.slots, args, header.volumeId, newMaster, draw).value;
    assert RewrappedSlot(header.slots[i], slots'[i], args, header.volumeId, newMaster);
    hide RewrapSlots, Execute;
    var header' := Execute(Some(header), Rekey(args, newMaster, draw)).value;
    var given := WithPassword(RequirePassword(args).value);
    RekeyOwners(header, args, newMaster, draw, i, given);
    assert OpenedBy(header', given);
    assert !OpenedBy(header, given) by {
      forall k | 0 <= k < |header.slots| && header.slots[k].Password? ensures k == i { }
    }
  }

  predicate Wraps(slot: Slot, key: Key) {
    slot.wrapped.Sealed? && slot.wrapped.message == key
  }

  /**
    Unlocked by password alone, a rekey keeps exactly the set of credentials; with a fresh
    key no slot wraps the retired one, and a copy of the old header still opens only to it.
   */
  lemma RekeyByPasswordKeepsCredentials(header: Header, args: CredentialArgs, newMaster: Key, draw: Draw)
    requires WellFormed(header) && args.identity.None? && Execute(Some(header), Rekey(args, newMaster, draw)).Ok?
    ensures var header' := Execute(Some(header), Rekey(args, newMaster, draw)).value;
            && SameCredentials(header, header')
            && (newMaster != MasterOf(header) ==> forall i | 0 <= i < |header'.slots| ::
              !Wraps(header'.slots[i], MasterOf(header)))
            && forall credential :: OpenedBy(header, credential) ==>
              OpenFrom(header, 0, credential) == Ok(MasterOf(header))
  {
    hide TrySlot, RewrapSlots;
    UnlockedIsMaster(header, args);
    CommandKeepsHeader(header, Rekey(args, newMaster, draw));
    hide Execute, OpenFrom;
    var header' := Execute(Some(header), Rekey(args, newMaster, draw)).value;
    OnlyPassword(header, args);
    RekeyKeepsCredentialsIff(header, args, newMaster, draw);
    forall i | 0 <= i < |header'.slots| ensures header'.slots[i].wrapped.message == newMaster {
      assert SlotOk(header'.slots[i], header'.volumeId, newMaster);
    }
    forall credential | OpenedBy(header, credential) ensures OpenFrom(header, 0, credential) == Ok(MasterOf(header)) {
      OwnersOpen(header, MasterOf(header), 0, credential);
    }
  }

  /** With one password slot at most, the password that opened the volume is that slot's. */
  lemma OnlyPassword(header: Header, args: CredentialArgs)
    requires AtMostOnePassword(header.slots) && args.identity.None?
    requires UnlockOf(args).Ok? && OpenedBy(header, UnlockOf(args).value)
    ensures RewrapsSamePassword(header, args)
  {
    var password := RequirePassword(args).value;
    var k :| 0 <= k < |header.slots| && OwnedBy(header.slots[k], WithPassword(password));
    forall i | 0 <= i < |header.slots| && header.slots[i].Password? ensures i == k { }
  }

  // ---- Who notices a changed slot list ----

  lemma {:induction false} OpenIgnoresMac(header: Header, mac: Mac, i: nat, credential: Unlock)
    requires i <= |header.slots|
    ensures OpenFrom(header.(mac := mac), i, credential) == OpenFrom(header, i, credential)
    decreases |header.slots| - i
  {
    if i < |header.slots| {
      assert TrySlot(header.(mac := mac), header.slots[i], credential) == TrySlot(header, header.slots[i], credential);
      hide TrySlot;
      OpenIgnoresMac(header, mac, i + 1, credential);
    }
  }

  /** Reading, resolving and opening do not look at the MAC. */
  lemma UnlockIgnoresMac(header: Header, mac: Mac, args: CredentialArgs)
    ensures Unlocked(Some(header), args).Ok? <==> Unlocked(Some(header.(mac := mac)), args).Ok?
    ensures Unlocked(Some(header), args).Ok? ==>
      && Unlocked(Some(header), args).value.0 == header
      && Unlocked(Some(header.(mac := mac)), args).value == (header.(mac := mac), Unlocked(Some(header), args).value.1)
  {
    hide OpenFrom;
    if UnlockOf(args).Ok? { OpenIgnoresMac(header, mac, 0, UnlockOf(args).value); }
  }

  /**
    Someone replaces the slot list of a well-formed header by another one the credential
    still opens. A rekey refuses exactly when the list differs; share, revoke and passwd do
    what they would do had the other list been sealed all along, and seal the result.
   */
  lemma OnlyRekeyDetects(header: Header, slots: seq<Slot>, command: Command)
    requires WellFormed(header)
    requires Unlocked(Some(header.(slots := slots)), command.args).Ok?
    requires Unlocked(Some(header.(slots := slots)), command.args).value.1 == MasterOf(header)
    ensures var changed := header.(slots := slots);
            if command.Rekey? then (Execute(Some(changed), command) == Err(BadMac) <==> slots != header.slots)
            else Execute(Some(changed), command) == Execute(Some(SealHeader(changed, MasterOf(header))), command)
  {
    var changed := header.(slots := slots);
    if command.Rekey? { RewrapNeverBadMac(slots, command.args, header.volumeId, command.newMaster, command.draw); }
    UnlockIgnoresMac(changed, MacOf(changed, MasterOf(header)), command.args);
    hide Unlocked, RecipientSlot, PasswordSlot, RewrapSlots;
  }

  lemma {:induction false} RewrapNeverBadMac(slots: seq<Slot>, args: CredentialArgs, volumeId: nat, master: Key,
    draw: Draw)
    ensures RewrapSlots(slots, args, volumeId, master, draw) != Err(BadMac)
    decreases |slots|
  {
    if slots != [] { RewrapNeverBadMac(slots[..|slots| - 1], args, volumeId, master, draw); }
  }

  // ---- The size cap that only reading checks ----

  /** By how many bytes a command that succeeds changes the serialized header. */
  function Growth(header: Header, command: Command): int {
    match command
    case Share(_, _, holder, _, _) => 2382 + Utf8Len(holder)
    case Revoke(_, slot) => if slot < |header.slots| then 0 - SlotLen(header.slots[slot]) else 0
    case Passwd(_, _, _, _, _) => if PasswordAt(header.slots, 0) == |header.slots| then 112 else 0
    case Rekey(_, _, _) => 0
  }

  lemma {:induction false} SlotsLenAppend(slots: seq<Slot>, more: seq<Slot>)
    ensures SlotsLen(slots + more) == SlotsLen(slots) + SlotsLen(more)
    decreases |more|
  {
    if more == [] {
      assert slots + more == slots;
    } else {
      var last := |more| - 1;
      assert (slots + more)[..|slots + more| - 1] == slots + more[..last];
      SlotsLenAppend(slots, more[..last]);
    }
  }

  lemma {:induction false} SlotsLenPointwise(slots: seq<Slot>, slots': seq<Slot>)
    requires |slots'| == |slots| && forall i | 0 <= i < |slots| :: SlotLen(slots'[i]) == SlotLen(slots[i])
    ensures SlotsLen(slots') == SlotsLen(slots)
    decreases |slots|
  {
    if slots != [] { SlotsLenPointwise(slots[..|slots| - 1], slots'[..|slots| - 1]); }
  }

  lemma SlotsLenOne(slot: Slot)
    ensures SlotsLen([slot]) == SlotLen(slot)
  {
    assert [slot][..0] == [];
  }

  lemma SlotsLenRemove(slots: seq<Slot>, at: nat)
    requires at < |slots|
    ensures SlotsLen(slots[..at] + slots[at + 1..]) == SlotsLen(slots) - SlotLen(slots[at])
  {
    assert slots == slots[..at] + ([slots[at]] + slots[at + 1..]);
    SlotsLenAppend(slots[..at], [slots[at]] + slots[at + 1..]);
    SlotsLenAppend([slots[at]], slots[at + 1..]);
    SlotsLenOne(slots[at]);
    SlotsLenAppend(slots[..at], slots[at + 1..]);
  }

  lemma RekeyKeepsLength(header: Header, command: Command)
    requires WellFormed(header) && Execute(Some(header), command).Ok? && command.Rekey?
    ensures SlotsLen(Execute(Some(header), command).value.slots) == SlotsLen(header.slots)
  {
    hide TrySlot, OpenFrom, OpenedBy, HeaderOk, RewrapSlots, SlotsLen;
    UnlockedIsMaster(header, command.args);
    RewrapSlotsOk(header.slots, command.args, header.volumeId, command.newMaster, command.draw);
    hide Unlocked;
    var slots' := Execute(Some(header), command).value.slots;
    forall i | 0 <= i < |header.slots| ensures SlotLen(slots'[i]) == SlotLen(header.slots[i]) {
      assert RewrappedSlot(header.slots[i], slots'[i], command.args, header.volumeId, command.newMaster);
    }
    SlotsLenPointwise(header.slots, slots');
  }

  lemma CommandGrows(header: Header, command: Command)
    requires WellFormed(header) && Execute(Some(header), command).Ok?
    ensures HeaderLen(Execute(Some(header), command).value) == HeaderLen(header) + Growth(header, command)
  {
    hide Execute, SlotsLen, WellFormed;
    var slots, slots' := header.slots, Execute(Some(header), command).value.slots;
    if command.Rekey? {
      RekeyKeepsLength(header, command);
    } else {
      NewSlots(header, command);
      match command
      case Share(_, _, _, _, _) => SlotsLenAppend(slots, [slots'[|slots|]]); SlotsLenOne(slots'[|slots|]);
      case Revoke(_, at) => SlotsLenRemove(slots, at);
      case Passwd(_, _, _, _, _) =>
        if PasswordAt(slots, 0) < |slots| { SlotsLenPointwise(slots, slots'); }
        else { SlotsLenAppend(slots, [slots'[|slots|]]); SlotsLenOne(slots'[|slots|]); }
    }
  }

  /**
    The header any command writes can be read back if and only if it is within the cap.
    Only a share, or a passwd that adds the password slot, can break it.
   */
  lemma StaysReadableIff(header: Header, command: Command)
    requires WellFormed(header) && Execute(Some(header), command).Ok?
    ensures ReadHeader(Some(Execute(Some(header), command).value)).Ok?
       <==> HeaderLen(header) + Growth(header, command) <= MAX_HEADER_BYTES
    ensures Growth(header, command) > 0 <==>
      command.Share? || (command.Passwd? && forall i | 0 <= i < |header.slots| :: !header.slots[i].Password?)
    ensures command.Revoke? || command.Rekey? ==> ReadHeader(Some(Execute(Some(header), command).value)).Ok?
  {
    CommandGrows(header, command);
    CommandKeepsHeader(header, command);
    ReadableBefore(header, command);
    hide Execute, SlotsLen;
  }

  lemma ReadableBefore(header: Header, command: Command)
    requires Execute(Some(header), command).Ok?
    ensures HeaderLen(header) <= MAX_HEADER_BYTES
  {
  }

  /** Past the cap every command refuses, so the volume is never opened or changed again. */
  lemma {:induction false} UnreadableForever(header: Header, commands: seq<Command>)
    requires HeaderLen(header) > MAX_HEADER_BYTES
    ensures Run(header, commands) == header
    decreases |commands|
  {
    if commands != [] {
      UnreadableForever(header, commands[..|commands| - 1]);
      assert Execute(Some(header), commands[|commands| - 1]).Err?;
    }
  }

  // ---- Runs that reach the cap ----

  const PW: CredentialArgs := CredentialArgs(Some("pw"), None)
  const FIRST: CredentialArgs := CredentialArgs(None, Some(0))

  function Unnamed(i: nat): Slot {
    Recipient("", KEM_PARAM, i, KemCiphertext(KEM_PARAM, i, 0), Sealed(Encapsulated(i, 0), 0, VolumeId(0), Random(0)))
  }

  function PasswordPw(): Slot {
    Password(0, DEFAULT_KDF, Sealed(FromPassword("pw", 0, DEFAULT_KDF), 0, VolumeId(0), Random(0)))
  }

  function HeaderWith(slots: seq<Slot>): Header {
    SealHeader(Header(HEADER_VERSION, 0, slots, ZeroMac), Random(0))
  }

  /** A volume made with password "pw" and shared with `n` unnamed recipients. */
  function SharedWith(n: nat): Header {
    HeaderWith([PasswordPw()] + seq(n, (i: nat) => Unnamed(i)))
  }

  /** The same after the password slot was revoked. */
  function RecipientsOnly(n: nat): Header {
    HeaderWith(seq(n, (i: nat) => Unnamed(i)))
  }

  lemma {:induction false} RecipientsOnlyLen(n: nat)
    ensures HeaderLen(RecipientsOnly(n)) == 60 + 2382 * n
    ensures HeaderLen(SharedWith(n)) == 172 + 2382 * n
  {
    var slots := RecipientsOnly(n).slots;
    if n > 0 {
      RecipientsOnlyLen(n - 1);
      assert slots[..n - 1] == RecipientsOnly(n - 1).slots;
    }
    SlotsLenAppend([PasswordPw()], slots);
    SlotsLenOne(PasswordPw());
  }

  function ShareUnnamed(args: CredentialArgs, n: nat): Command {
    Share(args, PublicIdentity(KEM_PARAM, n), "", 0, 0)
  }

  /** What `init` with password "pw" writes, for one choice of its random draws. */
  function NewVolume(): Header { InitHeader("pw", 0, Random(0), 0, 0) }

  lemma SharedWithNobody()
    ensures SharedWith(0) == NewVolume()
  {
    assert SharedWith(0).slots == [PasswordPw()];
  }

  lemma SharedWithWellFormed(n: nat)
    ensures WellFormed(SharedWith(n)) && (n > 0 ==> WellFormed(RecipientsOnly(n)))
  {
    SealedIsWellFormed(Header(HEADER_VERSION, 0, SharedWith(n).slots, ZeroMac), Random(0));
    if n > 0 { SealedIsWellFormed(Header(HEADER_VERSION, 0, RecipientsOnly(n).slots, ZeroMac), Random(0)); }
  }

  lemma PwOpens(n: nat)
    requires 172 + 2382 * n <= MAX_HEADER_BYTES
    ensures Unlocked(Some(SharedWith(n)), PW) == Ok((SharedWith(n), Random(0)))
  {
    RecipientsOnlyLen(n);
    hide HeaderLen;
    assert SharedWith(n).slots[0] == PasswordPw();
  }

  lemma FirstOpens(n: nat)
    requires 0 < n && 60 + 2382 * n <= MAX_HEADER_BYTES
    ensures Unlocked(Some(RecipientsOnly(n)), FIRST) == Ok((RecipientsOnly(n), Random(0)))
  {
    RecipientsOnlyLen(n);
    hide HeaderLen;
    assert RecipientsOnly(n).slots[0] == Unnamed(0);
  }

  lemma ShareOnce(n: nat)
    requires 172 + 2382 * n <= MAX_HEADER_BYTES
    ensures Execute(Some(SharedWith(n)), ShareUnnamed(PW, n)) == Ok(SharedWith(n + 1))
  {
    PwOpens(n);
    hide Unlocked;
    assert SharedWith(n).slots + [Unnamed(n)] == SharedWith(n + 1).slots;
  }

  function Shares(n: nat): seq<Command> { seq(n, (i: nat) => ShareUnnamed(PW, i)) }

  lemma {:induction false} ShareOften(n: nat)
    requires n == 0 || 172 + 2382 * (n - 1) <= MAX_HEADER_BYTES
    ensures Run(SharedWith(0), Shares(n)) == SharedWith(n)
  {
    if n > 0 {
      assert Shares(n) == Shares(n - 1) + [ShareUnnamed(PW, n - 1)];
      hide Run, Execute, SharedWith, Shares, ShareUnnamed;
      ShareOften(n - 1);
      RunSnoc(SharedWith(0), Shares(n - 1), ShareUnnamed(PW, n - 1));
      ShareOnce(n - 1);
    } else {
      hide SharedWith;
    }
  }

  /** From a fresh volume, the 110th share is accepted, and nothing can read the header again. */
  lemma OneShareTooMany(later: seq<Command>)
    ensures Execute(Some(Run(NewVolume(), Shares(109))), ShareUnnamed(PW, 109)).Ok?
    ensures ReadHeader(Some(Run(NewVolume(), Shares(109)))).Ok?
    ensures var header := Run(NewVolume(), Shares(110));
            ReadHeader(Some(header)) == Err(TooLarge) && Run(header, later) == header
  {
    SharedWithNobody();
    ShareOften(109);
    ShareOften(110);
    ShareOnce(109);
    RecipientsOnlyLen(109);
    RecipientsOnlyLen(110);
    UnreadableForever(SharedWith(110), later);
    hide Execute, Run, HeaderLen, NewVolume;
  }

  lemma RevokePassword(n: nat)
    requires 0 < n && 172 + 2382 * n <= MAX_HEADER_BYTES
    ensures Execute(Some(SharedWith(n)), Revoke(PW, 0)) == Ok(RecipientsOnly(n))
  {
    PwOpens(n);
    hide Unlocked;
    assert SharedWith(n).slots[..0] + SharedWith(n).slots[1..] == RecipientsOnly(n).slots;
  }

  lemma ShareFirst(n: nat)
    requires 0 < n && 60 + 2382 * n <= MAX_HEADER_BYTES
    ensures Execute(Some(RecipientsOnly(n)), ShareUnnamed(FIRST, n)) == Ok(RecipientsOnly(n + 1))
  {
    FirstOpens(n);
    hide Unlocked;
    assert RecipientsOnly(n).slots + [Unnamed(n)] == RecipientsOnly(n + 1).slots;
  }

  /**
    From a fresh volume: share 109 times, revoke the password, share once more. The header
    reads back, a passwd by the first recipient is accepted, and then it does not.
   */
  lemma OnePasswdTooMany(password: string, salt: nat, nonce: nat)
    requires password != ""
    ensures var header := Run(NewVolume(), Shares(109) + [Revoke(PW, 0)] + [ShareUnnamed(FIRST, 109)]);
            var command := Passwd(FIRST, password, password, salt, nonce);
            && WellFormed(header) && ReadHeader(Some(header)).Ok? && Execute(Some(header), command).Ok?
            && ReadHeader(Some(Execute(Some(header), command).value)) == Err(TooLarge)
  {
    hide Run, Execute, HeaderLen, RecipientsOnly, Shares, NewVolume, WellFormed, ReadHeader, ShareUnnamed;
    RecipientsRemain();
    PasswdTooLong(password, salt, nonce);
  }

  /** The run that leaves 110 recipients and no password. */
  lemma RecipientsRemain()
    ensures Run(NewVolume(), Shares(109) + [Revoke(PW, 0)] + [ShareUnnamed(FIRST, 109)]) == RecipientsOnly(110)
  {
    hide Run, Execute, RecipientsOnly, SharedWith, Shares, NewVolume, ShareUnnamed;
    RunSnoc(NewVolume(), Shares(109), Revoke(PW, 0));
    RunSnoc(NewVolume(), Shares(109) + [Revoke(PW, 0)], ShareUnnamed(FIRST, 109));
    SharedWithNobody();
    ShareOften(109);
    RevokePassword(109);
    ShareFirst(109);
  }

  lemma PasswdTooLong(password: string, salt: nat, nonce: nat)
    requires password != ""
    ensures var header := RecipientsOnly(110);
            var command := Passwd(FIRST, password, password, salt, nonce);
            && WellFormed(header) && ReadHeader(Some(header)).Ok? && Execute(Some(header), command).Ok?
            && ReadHeader(Some(Execute(Some(header), command).value)) == Err(TooLarge)
  {
    var header, command := RecipientsOnly(110), Passwd(FIRST, password, password, salt, nonce);
    SharedWithWellFormed(110);
    RecipientsOnlyLen(110);
    FirstOpens(110);
    hide Unlocked, WellFormed;
    assert Execute(Some(header), command).Ok?;
    CommandGrows(header, command);
    CommandKeepsHeader(header, command);
  }

  lemma RunSnoc(header: Header, commands: seq<Command>, command: Command)
    ensures Run(header, commands + [command]) ==
      match Execute(Some(Run(header, commands)), command) case Ok(header') => header'
        case Err(_) => Run(header, commands)
  {
    hide Execute;
    assert (commands + [command])[..|commands|] == commands;
  }

  /**
    A volume shared with two recipients loses its last slot on disk. Mounting and rekeying
    notice; a passwd does not, and seals the shortened list, so that nobody notices again.
   */
  lemma PasswdSealsShortened(password: string, salt: nat, nonce: nat)
    requires password != ""
    ensures var changed := SharedWith(2).(slots := SharedWith(1).slots);
            var r := Execute(Some(changed), Passwd(PW, password, password, salt, nonce));
            && WellFormed(SharedWith(2)) && OpenedBy(SharedWith(2), WithIdentity(1))
            && (forall newMaster, draw :: Execute(Some(changed), Rekey(PW, newMaster, draw)) == Err(BadMac))
            && r.Ok? && WellFormed(r.value) && !OpenedBy(r.value, WithIdentity(1))
  {
    var changed := SharedWith(2).(slots := SharedWith(1).slots);
    var command := Passwd(PW, password, password, salt, nonce);
    SharedWithWellFormed(1);
    SharedWithWellFormed(2);
    PwOpens(1);
    UnlockIgnoresMac(SharedWith(1), SharedWith(2).mac, PW);
    assert changed == SharedWith(1).(mac := SharedWith(2).mac);
    assert SharedWith(1).slots == [PasswordPw(), Unnamed(0)] &&
      SharedWith(2).slots == [PasswordPw(), Unnamed(0), Unnamed(1)];
    assert OwnedBy(SharedWith(2).slots[2], WithIdentity(1));
    assert !OpenedBy(SharedWith(1), WithIdentity(1));
    hide Execute, Unlocked, SharedWith, OpenedBy, HeaderOk;
    forall newMaster, draw ensures Execute(Some(changed), Rekey(PW, newMaster, draw)) == Err(BadMac) {
      OnlyRekeyDetects(SharedWith(2), SharedWith(1).slots, Rekey(PW, newMaster, draw));
    }
    OnlyRekeyDetects(SharedWith(2), SharedWith(1).slots, command);
    ResealedIsShared();
    PasswdWorks(password, salt, nonce);
    CommandKeepsHeader(SharedWith(1), command);
    PasswdReplaces(SharedWith(1), command, WithIdentity(1));
  }

  lemma ResealedIsShared()
    ensures SealHeader(SharedWith(2).(slots := SharedWith(1).slots), Random(0)) == SharedWith(1)
    ensures MasterOf(SharedWith(2)) == Random(0)
  {
  }

  lemma PasswdWorks(password: string, salt: nat, nonce: nat)
    requires password != ""
    ensures Execute(Some(SharedWith(1)), Passwd(PW, password, password, salt, nonce)).Ok?
  {
    PwOpens(1);
    hide Unlocked;
    assert SharedWith(1).slots[0] == PasswordPw();
  }

  /**
    The recipient of a volume with password "pw" rekeys it and passes another password: it
    succeeds, "other" opens the volume from then on, and "pw" does not.
   */
  lemma PasswordTakenOver(newMaster: Key, draw: Draw)
    ensures var command := Rekey(CredentialArgs(Some("other"), Some(0)), newMaster, draw);
            var r := Execute(Some(SharedWith(1)), command);
            && WellFormed(SharedWith(1)) && r.Ok? && !SameCredentials(SharedWith(1), r.value)
            && OpenedBy(r.value, WithPassword("other")) && !OpenedBy(r.value, WithPassword("pw"))
  {
    var args := CredentialArgs(Some("other"), Some(0));
    var header := SharedWith(1);
    SharedWithWellFormed(1);
    assert header.slots == [PasswordPw(), Unnamed(0)];
    TakeOverSucceeds(newMaster, draw);
    hide Execute;
    RekeyOwners(header, args, newMaster, draw, 0, WithPassword("other"));
    RekeyOwners(header, args, newMaster, draw, 0, WithPassword("pw"));
    RekeyOwners(header, args, newMaster, draw, 1, WithPassword("pw"));
    var header' := Execute(Some(header), Rekey(args, newMaster, draw)).value;
    assert |header'.slots| == 2;
    assert OwnedBy(header'.slots[0], WithPassword("other"));
    assert !OpenedBy(header, WithPassword("other"));
  }

  lemma TakeOverSucceeds(newMaster: Key, draw: Draw)
    ensures Execute(Some(SharedWith(1)), Rekey(CredentialArgs(Some("other"), Some(0)), newMaster, draw)).Ok?
  {
    var args := CredentialArgs(Some("other"), Some(0));
    var slots := SharedWith(1).slots;
    RecipientsOnlyLen(1);
    hide HeaderLen;
    assert slots == [PasswordPw(), Unnamed(0)];
    assert slots[..1] == [PasswordPw()] && [PasswordPw()][..0] == [];
    assert RewrapSlots(slots[..1], args, 0, newMaster, draw).Ok?;
    assert OpenFrom(SharedWith(1), 1, WithIdentity(0)) == Ok(Random(0));
  }
}
