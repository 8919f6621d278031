/** When each slot command succeeds, and with which error it refuses otherwise. */
module CommandReplies {
  import opened Prelude
  import opened SymbolicCrypto
  import opened KeySlots
  import opened Commands

  /** The stored header can be read, and the arguments name a credential that opens it. */
  ghost predicate Admitted(header: Header, args: CredentialArgs) {
    && WellFormed(header) && HeaderLen(header) <= 0x4_0000
    && (args.identity.Some? || (args.password.Some? && args.password.value != ""))
    && OpenedBy(header, CredentialOf(args))
  }

  /** The identity if there is one, else the password. */
  function CredentialOf(args: CredentialArgs): Unlock {
    if args.identity.Some? then WithIdentity(args.identity.value)
    else if args.password.Some? then WithPassword(args.password.value)
    else WithPassword("")
  }

  lemma AdmittedUnlocks(header: Header, args: CredentialArgs)
    requires Admitted(header, args)
    ensures Unlocked(Some(header), args) == Ok((header, MasterOf(header)))
  {
    OwnersOpen(header, MasterOf(header), 0, CredentialOf(args));
    hide SlotOk, OwnedBy, TrySlot, OpenFrom, HeaderLen;
  }

  /** Without access every command refuses, and says which part of it was missing. */
  lemma AccessRefused(stored: Option<Header>, command: Command)
    ensures stored.None? ==> Execute(stored, command) == Err(NoHeader)
    ensures stored.Some? && HeaderLen(stored.value) > 0x4_0000 ==> Execute(stored, command) == Err(TooLarge)
    ensures stored.Some? && HeaderLen(stored.value) <= 0x4_0000 && stored.value.version != 3 ==>
      Execute(stored, command) == Err(WrongVersion)
    ensures stored.Some? && HeaderLen(stored.value) <= 0x4_0000 && stored.value.version == 3
            && command.args.identity.None? && (command.args.password.None? || command.args.password.value == "") ==>
      Execute(stored, command) == Err(PasswordRequired)
    ensures stored.Some? && HeaderLen(stored.value) <= 0x4_0000 && WellFormed(stored.value)
            && !OpenedBy(stored.value, CredentialOf(command.args))
            && (command.args.identity.Some? || (command.args.password.Some? && command.args.password.value != "")) ==>
      Execute(stored, command) == Err(NoSlotAccepts)
  {
    hide HeaderLen, TrySlot, OpenFrom, RecipientSlot, PasswordSlot, RewrapSlots;
    if stored.Some? && WellFormed(stored.value) {
      OwnersOpen(stored.value, MasterOf(stored.value), 0, CredentialOf(command.args));
    }
    hide SlotOk, OwnedBy;
  }

  /** An identity decides alone; a password given beside it opens nothing. */
  lemma IdentityDecides(stored: Option<Header>, args: CredentialArgs, password: Option<string>)
    requires args.identity.Some?
    ensures Unlocked(stored, args) == Unlocked(stored, args.(password := password))
  {
    hide OpenFrom, HeaderLen;
  }

  /** A share is refused only for a key of another ML-KEM parameter set. */
  lemma ShareReplies(header: Header, command: Command)
    requires Admitted(header, command.args) && command.Share?
    ensures Execute(Some(header), command).Ok? <==> command.to.param == 768
    ensures command.to.param != 768 ==> Execute(Some(header), command) == Err(WrongParam)
  {
    AdmittedUnlocks(header, command.args);
    hide Unlocked, Admitted;
  }

  /** Any slot can be revoked but the last one left. */
  lemma RevokeReplies(header: Header, command: Command)
    requires Admitted(header, command.args) && command.Revoke?
    ensures Execute(Some(header), command).Ok? <==> command.slot < |header.slots| && |header.slots| >= 2
    ensures Execute(Some(header), command) == Err(NoSuchSlot) <==> command.slot >= |header.slots|
    ensures Execute(Some(header), command) == Err(LastSlot) <==> command.slot == 0 && |header.slots| == 1
  {
    AdmittedUnlocks(header, command.args);
    hide Unlocked;
  }

  /** A new password is refused only if it is empty or not repeated. */
  lemma PasswdReplies(header: Header, command: Command)
    requires Admitted(header, command.args) && command.Passwd?
    ensures Execute(Some(header), command).Ok? <==> command.password == command.repeated && command.password != ""
    ensures Execute(Some(header), command) == Err(Mismatch) <==> command.password != command.repeated
    ensures Execute(Some(header), command) == Err(EmptyPassword) <==>
      command.password == command.repeated && command.password == ""
  {
    AdmittedUnlocks(header, command.args);
    var at := PasswordAt(header.slots, 0);
    if at < |header.slots| { assert SlotOk(header.slots[at], header.volumeId, MasterOf(header)); }
    hide Unlocked;
  }

  /** A rekey is refused only if there is a password slot and no password for it. */
  lemma RekeyReplies(header: Header, command: Command)
    requires Admitted(header, command.args) && command.Rekey?
    ensures Execute(Some(header), command).Ok? <==>
      (command.args.password.Some? && command.args.password.value != "")
      || forall i | 0 <= i < |header.slots| :: !header.slots[i].Password?
    ensures Execute(Some(header), command).Err? ==> Execute(Some(header), command) == Err(PasswordRequired)
  {
    AdmittedUnlocks(header, command.args);
    RewrapReplies(header.slots, command.args, header.volumeId, MasterOf(header), command.newMaster, command.draw);
    hide Unlocked, RewrapSlots, SlotOk;
  }

  lemma {:induction false} RewrapReplies(slots: seq<Slot>, args: CredentialArgs, volumeId: nat, master: Key,
    newMaster: Key,
      draw: Draw)
    requires SlotsOk(slots, volumeId, master)
    ensures var r := RewrapSlots(slots, args, volumeId, newMaster, draw);
            && (r.Ok? <==>
                  (args.password.Some? && args.password.value != "")
                  || forall i | 0 <= i < |slots| :: !slots[i].Password?)
            && (r.Err? ==> r == Err(PasswordRequired))
    decreases |slots|
  {
    if slots != [] {
      var last := |slots| - 1;
      assert SlotOk(slots[last], volumeId, master);
      RewrapReplies(slots[..last], args, volumeId, master, newMaster, draw);
      assert forall i | 0 <= i < last :: slots[..last][i] == slots[i];
    }
  }

  /** The MAC binds version, volume and slots: under one key no other header has the same one. */
  lemma MacBindsHeader(header: Header, other: Header, master: Key)
    requires header.mac == MacOf(header, master) && other.mac == MacOf(other, master)
    ensures header.mac == other.mac <==> header == other
  {
  }
}
