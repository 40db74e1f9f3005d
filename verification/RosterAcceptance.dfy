/** `core_roster_accept` as a state machine over what is stored for one contact
    (core/src/device_roster.rs:1202-1414, core/src/store.rs:6062-6183): what every
    run keeps, and what a fork quarantine holds against. */
module RosterAcceptance {
  import opened Bytes
  import opened Roster
  import opened RosterPreimages
  import opened RosterValidation
  import opened RosterSamples

  datatype Outcome = Accepted | Ignored | ForkQuarantined

  datatype Reason =
    | FirstRoster
    | Superseded
    | Rollback
    | IdempotentRepeat
    | ForkedContent
    | PersonQuarantined
    | Invalid
    | RecoveryEpochRequiresRoot
    | TombstoneResurrected
    | InboxGenerationRegressed
    | VersionJumpTooLarge

  datatype Decision = Decision(
    outcome: Outcome,
    reason: Reason,
    rejection: Option<Rejection>,
    quarantined: bool,
    deviceCountOutcome: DeviceAddOutcome)

  function Decide(outcome: Outcome, reason: Reason, quarantined: bool): Decision {
    Decision(outcome, reason, None, quarantined, Added)
  }

  function Refuse(rejection: Rejection): Decision {
    Decide(Ignored, Invalid, false).(rejection := Some(rejection))
  }

  function SaturatingSub(a: u64, b: u64): u64 {
    if a < b then 0 else a - b
  }

  predicate PiercesQuarantine(stored: Option<Roster>, incoming: Roster, root: Blob) {
    stored.Some? && stored.value.personId == incoming.personId
    && incoming.recoveryEpoch > stored.value.recoveryEpoch
    && incoming.signerSignPk == root
  }

  predicate JumpsTooFar(stored: Roster, incoming: Roster) {
    || SaturatingSub(incoming.recoveryEpoch, stored.recoveryEpoch) > ROSTER_MAX_VERSION_JUMP
    || (incoming.recoveryEpoch == stored.recoveryEpoch
        && SaturatingSub(incoming.seqNo, stored.seqNo) > ROSTER_MAX_VERSION_JUMP)
  }

  predicate StaysBuried(c: Crypto, incoming: Roster, id: Blob) {
    && (exists j :: 0 <= j < |incoming.tombstones| && incoming.tombstones[j].deviceId == id)
    && !(exists j :: 0 <= j < |incoming.devices| && DeviceId(c, incoming.devices[j]) == id)
  }

  /** No stored burial is forgotten or exhumed. */
  predicate KeepsBurials(c: Crypto, stored: Roster, incoming: Roster) {
    forall i :: 0 <= i < |stored.tombstones| ==> StaysBuried(c, incoming, stored.tombstones[i].deviceId)
  }

  /** The rules against a stored roster, once the document itself is valid. */
  function AgainstStored(c: Crypto, stored: Roster, incoming: Roster, root: Blob): Decision {
    if stored.personId != incoming.personId then Refuse(PersonMismatch)
    else if VersionBelow(incoming, stored) then Decide(Ignored, Rollback, false)
    else if SameVersion(incoming, stored) then
      if HeadHash(c, stored) == HeadHash(c, incoming) then Decide(Ignored, IdempotentRepeat, false)
      else Decide(ForkQuarantined, ForkedContent, true)
    else if JumpsTooFar(stored, incoming) then Decide(Ignored, VersionJumpTooLarge, false)
    else if incoming.recoveryEpoch > stored.recoveryEpoch && incoming.signerSignPk != root then
      Decide(Ignored, RecoveryEpochRequiresRoot, false)
    else if !KeepsBurials(c, stored, incoming) then Decide(Ignored, TombstoneResurrected, false)
    else if incoming.recoveryEpoch == stored.recoveryEpoch
            && incoming.inboxKeyGeneration < stored.inboxKeyGeneration then
      Decide(Ignored, InboxGenerationRegressed, false)
    else Decide(Accepted, Superseded, false)
  }

  /** `ordering_verdict`, given what validation said of the document. */
  function OrderingVerdict(
      c: Crypto, stored: Option<Roster>, quarantined: bool, incoming: Roster, root: Blob,
      rejection: Option<Rejection>): Decision
  {
    if quarantined && !PiercesQuarantine(stored, incoming, root) then
      Decide(ForkQuarantined, PersonQuarantined, true)
    else if rejection.Some? then Refuse(rejection.value)
    else if stored.None? then Decide(Accepted, FirstRoster, false)
    else AgainstStored(c, stored.value, incoming, root)
  }

  ghost function Accept(
      c: Crypto, stored: Option<Roster>, quarantined: bool, incoming: Roster, root: Blob): Decision
  {
    OrderingVerdict(c, stored, quarantined, incoming, root, Verdict(c, incoming, root))
      .(deviceCountOutcome := DeviceAdd(DeviceCount(incoming)))
  }

  /** The tombstone loop: every stored burial is still one, and not also active. */
  method ScanBurials(c: Crypto, stored: Roster, incoming: Roster) returns (kept: bool)
    ensures kept == KeepsBurials(c, stored, incoming)
  {
    var incomingIds := [];
    for i := 0 to |incoming.devices|
      invariant |incomingIds| == i && forall j :: 0 <= j < i ==> incomingIds[j] == DeviceId(c, incoming.devices[j])
    {
      incomingIds := incomingIds + [DeviceId(c, incoming.devices[i])];
    }
    for k := 0 to |stored.tombstones|
      invariant forall i :: 0 <= i < k ==> StaysBuried(c, incoming, stored.tombstones[i].deviceId)
    {
      var id := stored.tombstones[k].deviceId;
      var later := 0;
      while later < |incoming.tombstones| && incoming.tombstones[later].deviceId != id
        invariant later <= |incoming.tombstones|
        invariant forall j :: 0 <= j < later ==> incoming.tombstones[j].deviceId != id
      {
        later := later + 1;
      }
      assert id in incomingIds <==> exists j :: 0 <= j < |incoming.devices| && DeviceId(c, incoming.devices[j]) == id;
      if later == |incoming.tombstones| || id in incomingIds {
        assert !StaysBuried(c, incoming, id);
        return false;
      }
      assert StaysBuried(c, incoming, id);
    }
    kept := true;
  }

  /** `ordering_verdict`: validation is asked only past the quarantine, and each rule
      only past the ones before it. */
  method JudgeOrdering(
      c: Crypto, stored: Option<Roster>, quarantined: bool, incoming: Roster, root: Blob)
    returns (d: Decision)
    ensures d == OrderingVerdict(c, stored, quarantined, incoming, root, Verdict(c, incoming, root))
  {
    hide Verdict, KeepsBurials, HeadHash;
    if quarantined && !PiercesQuarantine(stored, incoming, root) {
      return Decide(ForkQuarantined, PersonQuarantined, true);
    }
    var rejection := Validate(c, incoming, root);
    if rejection.Some? { return Refuse(rejection.value); }
    if stored.None? { return Decide(Accepted, FirstRoster, false); }
    var held := stored.value;
    if held.personId != incoming.personId { return Refuse(PersonMismatch); }
    if VersionBelow(incoming, held) { return Decide(Ignored, Rollback, false); }
    if SameVersion(incoming, held) {
      if HeadHash(c, held) == HeadHash(c, incoming) { return Decide(Ignored, IdempotentRepeat, false); }
      return Decide(ForkQuarantined, ForkedContent, true);
    }
    if JumpsTooFar(held, incoming) { return Decide(Ignored, VersionJumpTooLarge, false); }
    if incoming.recoveryEpoch > held.recoveryEpoch && incoming.signerSignPk != root {
      return Decide(Ignored, RecoveryEpochRequiresRoot, false);
    }
    var kept := ScanBurials(c, held, incoming);
    if !kept { return Decide(Ignored, TombstoneResurrected, false); }
    if incoming.recoveryEpoch == held.recoveryEpoch && incoming.inboxKeyGeneration < held.inboxKeyGeneration {
      return Decide(Ignored, InboxGenerationRegressed, false);
    }
    d := Decide(Accepted, Superseded, false);
  }

  /** `core_roster_accept`: the device count is stamped on whatever was decided. */
  method RosterAccept(
      c: Crypto, stored: Option<Roster>, quarantined: bool, incoming: Roster, root: Blob)
    returns (d: Decision)
    ensures d == Accept(c, stored, quarantined, incoming, root)
  {
    var deviceCountOutcome := DeviceAdd(DeviceCount(incoming));
    d := JudgeOrdering(c, stored, quarantined, incoming, root);
    d := d.(deviceCountOutcome := deviceCountOutcome);
  }

  // ---- Runs ----

  /** What is persisted for one contact. */
  datatype Held = Held(roster: Option<Roster>, quarantined: bool)

  datatype Event =
    | Gossip(roster: Roster)
    | ClearQuarantine // a person resolving the fork by hand

  /** State is written on `Accepted` and `ForkQuarantined`, and by the person. */
  ghost function Step(c: Crypto, root: Blob, s: Held, e: Event): Held {
    match e
    case ClearQuarantine => s.(quarantined := false)
    case Gossip(d) =>
      var v := Accept(c, s.roster, s.quarantined, d, root);
      match v.outcome
      case Accepted => Held(Some(d), v.quarantined)
      case ForkQuarantined => s.(quarantined := true)
      case Ignored => s
  }

  ghost function Run(c: Crypto, root: Blob, s: Held, es: seq<Event>): Held {
    if es == [] then s else Step(c, root, Run(c, root, s, es[..|es| - 1]), es[|es| - 1])
  }

  /** `non_surfacing_device_count_outcome`: the warning goes, a refusal stays. */
  function NonSurfacing(o: DeviceAddOutcome): DeviceAddOutcome {
    if o == AddedWithWarning then Added else o
  }

  /** A contact's root key, and the stamp of the relay endpoint held for them. */
  datatype Contact = Contact(signPk: Blob, relayEpoch: u64)

  /** The contacts, and the roster state of each person there is one for. */
  class ContactRosterStore {
    var contacts: map<Blob, Contact>
    var held: map<Blob, Held>

    /** Nothing stored reads as no roster and no quarantine. */
    function StateOf(person: Blob): Held
      reads this
    {
      if person in held then held[person] else Held(None, false)
    }

    constructor (contacts: map<Blob, Contact>)
      ensures this.contacts == contacts && forall person :: StateOf(person) == Held(None, false)
    {
      this.contacts, held := contacts, map[];
    }

    /** A document about a stranger changes nothing. One about a contact takes that
        person's state one step, under their own root key, and no one else's; and
        accepting a higher recovery epoch, and nothing else, resets the relay stamp. */
    method ApplyContactRoster(c: Crypto, incoming: Roster) returns (d: Decision)
      modifies this
      ensures incoming.personId !in old(contacts) ==>
                && d == Refuse(PersonMismatch).(deviceCountOutcome := NonSurfacing(DeviceAdd(DeviceCount(incoming))))
                && contacts == old(contacts) && held == old(held)
      ensures incoming.personId in old(contacts) ==>
                var person, s := incoming.personId, old(StateOf(incoming.personId));
                var contact := old(contacts)[person];
                var full := Accept(c, s.roster, s.quarantined, incoming, contact.signPk);
                var reset := full.outcome == Accepted && s.roster.Some?
                             && incoming.recoveryEpoch > s.roster.value.recoveryEpoch;
                && d == full.(deviceCountOutcome := NonSurfacing(full.deviceCountOutcome))
                && StateOf(person) == Step(c, contact.signPk, s, Gossip(incoming))
                && (forall other :: other != person ==> StateOf(other) == old(StateOf(other)))
                && contacts == old(contacts)[person := if reset then contact.(relayEpoch := 0) else contact]
    {
      var person := incoming.personId;
      if person !in contacts {
        return Refuse(PersonMismatch).(deviceCountOutcome := NonSurfacing(DeviceAdd(DeviceCount(incoming))));
      }
      var state := StateOf(person);
      d := RosterAccept(c, state.roster, state.quarantined, incoming, contacts[person].signPk);
      hide Accept;
      d := d.(deviceCountOutcome := NonSurfacing(d.deviceCountOutcome));
      match d.outcome {
        case Accepted =>
          held := held[person := Held(Some(incoming), d.quarantined)];
          if state.roster.Some? && incoming.recoveryEpoch > state.roster.value.recoveryEpoch {
            contacts := contacts[person := contacts[person].(relayEpoch := 0)];
          }
        case ForkQuarantined =>
          held := held[person := state.(quarantined := true)];
        case Ignored =>
      }
    }

    method ClearRosterQuarantine(ghost c: Crypto, ghost root: Blob, person: Blob) returns (was: bool)
      modifies this`held
      ensures StateOf(person) == Step(c, root, old(StateOf(person)), ClearQuarantine)
      ensures forall other :: other != person ==> StateOf(other) == old(StateOf(other))
      ensures was == old(StateOf(person)).quarantined
    {
      was := StateOf(person).quarantined;
      if was { held := held[person := held[person].(quarantined := false)]; }
    }
  }

  ghost predicate Sound(c: Crypto, root: Blob, s: Held) {
    s.roster.Some? ==> ValidRoster(c, s.roster.value, root)
  }

  /** What `later` may not undo about `earlier`. */
  ghost predicate Upholds(c: Crypto, earlier: Roster, later: Roster) {
    && (|| later == earlier || earlier.recoveryEpoch < later.recoveryEpoch
        || (earlier.recoveryEpoch == later.recoveryEpoch && earlier.seqNo < later.seqNo))
    && TombstoneIds(earlier) <= TombstoneIds(later)
    && TombstoneIds(earlier) !! ActiveIds(c, later)
    && (earlier.recoveryEpoch == later.recoveryEpoch
        ==> earlier.inboxKeyGeneration <= later.inboxKeyGeneration)
  }

  ghost predicate Ratchets(c: Crypto, a: Held, b: Held) {
    a.roster.Some? ==> b.roster.Some? && Upholds(c, a.roster.value, b.roster.value)
  }

  lemma BuriedById(c: Crypto, r: Roster, id: Blob)
    ensures StaysBuried(c, r, id) <==> id in TombstoneIds(r) && id !in ActiveIds(c, r)
  {
  }

  lemma BurialsKept(c: Crypto, stored: Roster, incoming: Roster)
    ensures KeepsBurials(c, stored, incoming)
       <==> TombstoneIds(stored) <= TombstoneIds(incoming) && TombstoneIds(stored) !! ActiveIds(c, incoming)
  {
    forall id ensures StaysBuried(c, incoming, id) <==> id in TombstoneIds(incoming) && id !in ActiveIds(c, incoming) {
      BuriedById(c, incoming, id);
    }
    hide StaysBuried, ActiveIds;
    assert KeepsBurials(c, stored, incoming)
      <==> forall id :: id in TombstoneIds(stored) ==> StaysBuried(c, incoming, id) by {
      forall i | 0 <= i < |stored.tombstones|
        ensures stored.tombstones[i].deviceId in TombstoneIds(stored)
      {}
    }
  }

  /** A later version, and at most a million epochs, or in one epoch a million
      sequence numbers, ahead. */
  ghost predicate Follows(stored: Roster, d: Roster) {
    || (stored.recoveryEpoch < d.recoveryEpoch <= stored.recoveryEpoch + 1_000_000)
    || (stored.recoveryEpoch == d.recoveryEpoch && stored.seqNo < d.seqNo <= stored.seqNo + 1_000_000)
  }

  /** When a valid document replaces what is stored. */
  ghost predicate Replaces(c: Crypto, root: Blob, stored: Roster, d: Roster) {
    && Follows(stored, d)
    && (d.recoveryEpoch > stored.recoveryEpoch ==> d.signerSignPk == root)
    && TombstoneIds(stored) <= TombstoneIds(d) && TombstoneIds(stored) !! ActiveIds(c, d)
    && (d.recoveryEpoch == stored.recoveryEpoch ==> stored.inboxKeyGeneration <= d.inboxKeyGeneration)
  }

  /** The whole step, from a sound state, by its effect. */
  lemma StepEffect(c: Crypto, root: Blob, s: Held, d: Roster)
    requires Sound(c, root, s)
    ensures var t := Step(c, root, s, Gossip(d));
            var valid := ValidRoster(c, d, root);
            if s.quarantined then
              t == if s.roster.Some? && valid && d.signerSignPk == root
                      && d.recoveryEpoch > s.roster.value.recoveryEpoch && Replaces(c, root, s.roster.value, d)
                   then Held(Some(d), false) else s
            else if !valid then t == s
            else if s.roster.None? then t == Held(Some(d), false)
            else if d.recoveryEpoch == s.roster.value.recoveryEpoch && d.seqNo == s.roster.value.seqNo then
              t == s.(quarantined := HeadHash(c, s.roster.value) != HeadHash(c, d))
            else t == if Replaces(c, root, s.roster.value, d) then Held(Some(d), false) else s
  {
    ValidIffNoRejection(c, d, root);
    if s.roster.Some? { BurialsKept(c, s.roster.value, d); }
    hide ValidRoster, Verdict, KeepsBurials, HeadHash;
    if ValidRoster(c, d, root) { SamePerson(c, root, s, d); }
  }

  lemma SamePerson(c: Crypto, root: Blob, s: Held, d: Roster)
    requires Sound(c, root, s) && ValidRoster(c, d, root)
    ensures s.roster.Some? ==> s.roster.value.personId == d.personId
  {
  }

  lemma StepKeepsSound(c: Crypto, root: Blob, s: Held, e: Event)
    requires Sound(c, root, s)
    ensures Sound(c, root, Step(c, root, s, e))
    ensures Ratchets(c, s, Step(c, root, s, e))
  {
    if e.Gossip? { StepEffect(c, root, s, e.roster); }
    if s.roster.Some? { BuriedApart(c, s.roster.value, root); }
    hide ValidRoster;
  }

  lemma UpholdsTransitive(c: Crypto, x: Roster, y: Roster, z: Roster)
    requires Upholds(c, x, y) && Upholds(c, y, z)
    ensures Upholds(c, x, z)
  {
  }

  /** Over every run and between any two moments of it: the stored roster only
      moves to strictly higher versions, no burial is lost, no buried device is
      active again, and the inbox generation does not fall within an epoch. */
  lemma {:induction false} RunRatchets(c: Crypto, root: Blob, s: Held, es: seq<Event>, i: nat, j: nat)
    requires Sound(c, root, s) && i <= j <= |es|
    ensures Sound(c, root, Run(c, root, s, es[..j]))
    ensures Ratchets(c, Run(c, root, s, es[..i]), Run(c, root, s, es[..j]))
    decreases j
  {
    if j == 0 {
      if s.roster.Some? { BuriedApart(c, s.roster.value, root); }
    } else {
      var before := Run(c, root, s, es[..j - 1]);
      assert es[..j][..j - 1] == es[..j - 1];
      RunRatchets(c, root, s, es, if i < j then i else 0, j - 1);
      StepKeepsSound(c, root, before, es[j - 1]);
      var a, b := Run(c, root, s, es[..i]), Run(c, root, s, es[..j]);
      if i < j && a.roster.Some? {
        UpholdsTransitive(c, a.roster.value, before.roster.value, b.roster.value);
      }
      if b.roster.Some? { BuriedApart(c, b.roster.value, root); }
    }
  }

  /** A valid document signed by, and verifying under, the person root. */
  ghost predicate RootSigned(c: Crypto, root: Blob, d: Roster) {
    ValidRoster(c, d, root) && d.signerSignPk == root
    && c.verifies(root, RosterSignedBytes(d), d.signature)
  }

  /** One step raises the epoch only to that of a document the root signed. */
  lemma EpochStep(c: Crypto, root: Blob, s: Held, e: Event)
    requires Sound(c, root, s) && s.roster.Some?
    ensures var t := Step(c, root, s, e);
            && t.roster.Some? && t.roster.value.recoveryEpoch >= s.roster.value.recoveryEpoch
            && (t.roster.value.recoveryEpoch > s.roster.value.recoveryEpoch ==>
                  e == Gossip(t.roster.value) && RootSigned(c, root, t.roster.value))
  {
    if e.Gossip? { StepEffect(c, root, s, e.roster); }
  }

  /** A document of this epoch, signed by the root, is among the events. */
  ghost predicate RootSignedIn(c: Crypto, root: Blob, es: seq<Event>, epoch: u64) {
    exists d :: Gossip(d) in es && RootSigned(c, root, d) && d.recoveryEpoch == epoch
  }

  lemma RootSignedLater(c: Crypto, root: Blob, es: seq<Event>, n: nat, epoch: u64)
    requires n <= |es| && RootSignedIn(c, root, es[..n], epoch)
    ensures RootSignedIn(c, root, es, epoch)
  {
    hide RootSigned;
    var d :| Gossip(d) in es[..n] && RootSigned(c, root, d) && d.recoveryEpoch == epoch;
    assert Gossip(d) in es;
  }

  /** In every run the epoch never falls, and rises only through the person root. */
  lemma {:induction false} EpochRisesByRoot(c: Crypto, root: Blob, s: Held, es: seq<Event>)
    requires Sound(c, root, s) && s.roster.Some?
    ensures var t := Run(c, root, s, es);
            t.roster.Some? && t.roster.value.recoveryEpoch >= s.roster.value.recoveryEpoch
    ensures var t := Run(c, root, s, es);
            t.roster.value.recoveryEpoch > s.roster.value.recoveryEpoch ==>
              RootSignedIn(c, root, es, t.roster.value.recoveryEpoch)
  {
    hide Step, RootSigned, Sound, Ratchets;
    if es == [] {
    } else {
      var n := |es| - 1;
      EpochRisesByRoot(c, root, s, es[..n]);
      RunRatchets(c, root, s, es, n, n);
      var before, t := Run(c, root, s, es[..n]), Run(c, root, s, es);
      EpochStep(c, root, before, es[n]);
      if before.roster.value.recoveryEpoch < t.roster.value.recoveryEpoch {
        assert es[n] in es;
      } else if s.roster.value.recoveryEpoch < t.roster.value.recoveryEpoch {
        RootSignedLater(c, root, es, n, t.roster.value.recoveryEpoch);
      }
    }
  }

  // ---- Fork quarantine ----

  /** A document that may lift the quarantine of what is held. */
  ghost predicate Resolves(c: Crypto, root: Blob, s: Held, d: Roster) {
    s.roster.Some? && RootSigned(c, root, d)
    && d.recoveryEpoch > s.roster.value.recoveryEpoch && Replaces(c, root, s.roster.value, d)
  }

  /** Under quarantine a document changes anything exactly when it resolves it. */
  lemma QuarantineStep(c: Crypto, root: Blob, s: Held, d: Roster)
    requires Sound(c, root, s) && s.quarantined
    ensures Resolves(c, root, s, d) ==> Step(c, root, s, Gossip(d)) == Held(Some(d), false)
    ensures !Resolves(c, root, s, d) ==> Step(c, root, s, Gossip(d)) == s
  {
    StepEffect(c, root, s, d);
  }

  /** From a fork onward nothing moves, in any run without such a document. */
  lemma {:induction false} QuarantineHolds(c: Crypto, root: Blob, s: Held, es: seq<Event>)
    requires Sound(c, root, s) && s.quarantined
    requires forall i :: 0 <= i < |es| ==> es[i].Gossip? && !Resolves(c, root, s, es[i].roster)
    ensures Run(c, root, s, es) == s
  {
    if es == [] {
    } else {
      var n := |es| - 1;
      QuarantineHolds(c, root, s, es[..n]);
      QuarantineStep(c, root, s, es[n].roster);
    }
  }

  // ---- The decision, on the documents' own fields ----

  /** Some stored burial is forgotten, or its device listed again. */
  ghost predicate Exhumes(c: Crypto, stored: Roster, d: Roster) {
    exists id :: id in TombstoneIds(stored) && (id !in TombstoneIds(d) || id in ActiveIds(c, d))
  }

  /** What each reason says of a valid document against a stored one. */
  ghost predicate Reasoned(c: Crypto, root: Blob, stored: Roster, d: Roster, reason: Reason) {
    var rises := d.recoveryEpoch > stored.recoveryEpoch;
    match reason
    case Rollback =>
      || d.recoveryEpoch < stored.recoveryEpoch
      || (d.recoveryEpoch == stored.recoveryEpoch && d.seqNo < stored.seqNo)
    case IdempotentRepeat =>
      && d.recoveryEpoch == stored.recoveryEpoch && d.seqNo == stored.seqNo && HeadHash(c, stored) == HeadHash(c, d)
    case ForkedContent =>
      && d.recoveryEpoch == stored.recoveryEpoch && d.seqNo == stored.seqNo && HeadHash(c, stored) != HeadHash(c, d)
    case VersionJumpTooLarge =>
      || d.recoveryEpoch > stored.recoveryEpoch + 1_000_000
      || (d.recoveryEpoch == stored.recoveryEpoch && d.seqNo > stored.seqNo + 1_000_000)
    case RecoveryEpochRequiresRoot => Follows(stored, d) && rises && d.signerSignPk != root
    case TombstoneResurrected => Follows(stored, d) && (rises ==> d.signerSignPk == root) && Exhumes(c, stored, d)
    case InboxGenerationRegressed =>
      Follows(stored, d) && !rises && !Exhumes(c, stored, d) && d.inboxKeyGeneration < stored.inboxKeyGeneration
    case Superseded =>
      && Follows(stored, d) && (rises ==> d.signerSignPk == root) && !Exhumes(c, stored, d)
      && (!rises ==> d.inboxKeyGeneration >= stored.inboxKeyGeneration)
    case _ => false
  }

  /** Heard through a quarantine: the same person, a higher epoch, naming the root. */
  ghost predicate Heard(s: Held, d: Roster, root: Blob) {
    s.quarantined ==>
      && s.roster.Some? && s.roster.value.personId == d.personId
      && d.recoveryEpoch > s.roster.value.recoveryEpoch && d.signerSignPk == root
  }

  lemma KeptMeansNotExhumed(c: Crypto, stored: Roster, d: Roster)
    ensures KeepsBurials(c, stored, d) <==> !Exhumes(c, stored, d)
  {
    BurialsKept(c, stored, d);
    hide KeepsBurials, TombstoneIds, ActiveIds;
  }

  lemma AgainstStoredReasoned(c: Crypto, root: Blob, stored: Roster, d: Roster, reason: Reason)
    requires stored.personId == d.personId
    ensures AgainstStored(c, stored, d, root).reason == reason <==> Reasoned(c, root, stored, d, reason)
  {
    KeptMeansNotExhumed(c, stored, d);
    hide KeepsBurials, Exhumes, HeadHash;
  }

  /** Each reason is given exactly where the documents call for it. */
  lemma ReasonedExactly(c: Crypto, root: Blob, s: Held, d: Roster, reason: Reason)
    requires Sound(c, root, s)
    ensures Accept(c, s.roster, s.quarantined, d, root).reason == reason <==>
              if !Heard(s, d, root) then reason == PersonQuarantined
              else if !ValidRoster(c, d, root) then reason == Invalid
              else if s.roster.None? then reason == FirstRoster
              else Reasoned(c, root, s.roster.value, d, reason)
  {
    ValidIffNoRejection(c, d, root);
    if s.roster.Some? && ValidRoster(c, d, root) {
      SamePerson(c, root, s, d);
      AgainstStoredReasoned(c, root, s.roster.value, d, reason);
    }
    hide ValidRoster, Verdict, AgainstStored, Reasoned;
  }

  /** A valid document of another person than the one stored is no update to it. */
  lemma OtherPersonRefused(c: Crypto, root: Blob, s: Held, d: Roster)
    requires !s.quarantined && s.roster.Some? && s.roster.value.personId != d.personId && ValidRoster(c, d, root)
    ensures var v := Accept(c, s.roster, s.quarantined, d, root);
            v.outcome == Ignored && v.reason == Invalid && v.rejection == Some(PersonMismatch) && !v.quarantined
  {
    ValidIffNoRejection(c, d, root);
    hide ValidRoster, Verdict;
  }

  /** What a reason entails for the rest of the decision. */
  lemma ReasonDecides(c: Crypto, root: Blob, s: Held, d: Roster)
    ensures var v := Accept(c, s.roster, s.quarantined, d, root);
            && (v.outcome == Accepted <==> v.reason == FirstRoster || v.reason == Superseded)
            && (v.outcome == ForkQuarantined <==> v.reason == ForkedContent || v.reason == PersonQuarantined)
            && (v.quarantined <==> v.outcome == ForkQuarantined)
            && (v.rejection.Some? <==> v.reason == Invalid)
            && (v.reason == Invalid && !ValidRoster(c, d, root) ==> v.rejection == Verdict(c, d, root))
            && (v.deviceCountOutcome == Refused <==> |d.devices| % 0x1_0000_0000 > 16)
            && (v.deviceCountOutcome == AddedWithWarning <==> 8 < |d.devices| % 0x1_0000_0000 <= 16)
  {
    ValidIffNoRejection(c, d, root);
    hide ValidRoster, Verdict, KeepsBurials, HeadHash;
  }

  /** The bit the decision returns, exactly: under quarantine it stays set unless
      the document pierces, whatever becomes of the document afterwards. */
  lemma ReturnedBit(c: Crypto, s: Held, d: Roster, root: Blob)
    ensures var v := Accept(c, s.roster, s.quarantined, d, root);
            v.quarantined <==>
              if s.quarantined then !PiercesQuarantine(s.roster, d, root) else v.reason == ForkedContent
  {
    hide Verdict, HeadHash, KeepsBurials;
  }

  /** So "the bit clears only on acceptance" fails: over a valid stored roster, a
      document that merely names the root as its signer, at a higher epoch, clears
      the returned bit and is then refused. */
  lemma PiercingClearsUnaccepted()
    ensures var c, root, stored := Trusting(), RootKey(), SampleRoster(0, 0, RootKey());
            var d := SampleRoster(1, 0, RootKey()).(signature := []);
            var v := Accept(c, Some(stored), true, d, root);
            && Sound(c, root, Held(Some(stored), true))
            && v.outcome == Ignored && v.rejection == Some(MalformedField) && !v.quarantined
  {
    SampleValid(0, 0, RootKey());
    hide ValidRoster;
  }

  /** It holds exactly for documents that do not pierce, or that resolve. */
  lemma BitClearsOnlyOnAcceptance(c: Crypto, root: Blob, s: Held, d: Roster)
    requires Sound(c, root, s) && s.quarantined
    ensures var v := Accept(c, s.roster, true, d, root);
            (!v.quarantined ==> v.outcome == Accepted) <==>
              (PiercesQuarantine(s.roster, d, root) ==> Resolves(c, root, s, d))
  {
    ReturnedBit(c, s, d, root);
    QuarantineStep(c, root, s, d);
    ValidIffNoRejection(c, d, root);
    hide Verdict, HeadHash, KeepsBurials, ValidRoster, Replaces;
  }

  /** At equal versions, with a digest that separates these two documents, a
      repeat is recognised exactly when they agree on all but the signature, and
      anything else is a fork. */
  lemma EqualVersionsForkExactly(c: Crypto, s: Held, d: Roster, root: Blob)
    requires Sound(c, root, s) && !s.quarantined && s.roster.Some?
    requires ValidRoster(c, d, root) && SameVersion(d, s.roster.value)
    requires RosterFits(d) && RosterFits(s.roster.value)
    requires HeadHash(c, s.roster.value) == HeadHash(c, d)
             ==> RosterSignedBytes(s.roster.value) == RosterSignedBytes(d)
    ensures var v := Accept(c, s.roster, false, d, root);
            if s.roster.value.(signature := []) == d.(signature := [])
            then v.reason == IdempotentRepeat && v.outcome == Ignored
            else v.reason == ForkedContent && v.outcome == ForkQuarantined
  {
    var held := s.roster.value;
    ValidIffNoRejection(c, d, root);
    SamePerson(c, root, s, d);
    if RosterSignedBytes(held) == RosterSignedBytes(d) {
      PreimagesInjective(OfRoster(held), OfRoster(d));
    }
    if held.(signature := []) == d.(signature := []) {
      assert RosterSignedBytes(held) == RosterSignedBytes(held.(signature := []));
      assert RosterSignedBytes(d) == RosterSignedBytes(d.(signature := []));
    }
    hide Verdict, KeepsBurials;
  }
}
