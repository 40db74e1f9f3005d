# CruiseMesh core, verified in Dafny

CruiseMesh is a delay-tolerant messenger: phones carry sealed envelopes for each
other over Bluetooth, local Wi-Fi and a relay mailbox. This project models the
parts of its Rust core whose correctness is a statement about whole documents or
whole runs, and proves those statements for every input and every run.

- **Device rosters.** The signed, versioned list of a person's devices: the bytes
  its signatures cover (`RosterPreimages`), its wire format (`RosterCodec`), its
  validity with the certificate fixpoint (`RosterValidation`), the acceptance step
  as a state machine with fork quarantine (`RosterAcceptance`), and when gossip
  converges (`RosterConvergence`).
- **The relay mailbox.** Addressing, classification and ack planning
  (`RelayMailbox`), and the protocol any number of phones run on it
  (`RelayProtocol`).
- **The digest spray.** The greedy selection, the incremental fetch that feeds it
  and the once-a-session rule for hidden kinds (`SpraySelection`).
- **Group metadata** (`GroupMetadata`), **the seen-id set** (`SeenIds`), **signed
  message bodies** (`SignedBody`), **BLE fragments and LAN records**
  (`Reassembly`, `BleFraming`, `LanSession`), **lamport allocation**
  (`AuthoredLamport`) and **the People page** (`People`).

`Bytes`, `ByteOrder` and `Sets` hold the byte layouts, the byte-string order and the
set sizes the others share; `Roster` the roster's data types, and `RosterSamples` a few
valid rosters. `dafny verify dfyconfig.toml` checks the
whole project.

## How the source is read

- Loops and state changed in place are methods and classes, each proved equal to a
  specification function; the theorems are about that function.
- Hashes and signatures are arbitrary functions passed in. No theorem assumes that
  a fixed-width hash is injective. Where one needs two particular values kept
  apart, or a signature to cover one string only, it says so in its `requires`.
  In the mailbox, hints and fan-out ids are symbolic: the pair they are computed
  from.
- Ids that are only compared are numbers (`SeenIds`, `SpraySelection`,
  `RelayMailbox`, `AuthoredLamport`).
- Wrap-around is explicit: the 32-bit device count, the 32-bit padding length, the
  wrapping LAN frame id, the saturating signed 64-bit lamport.
- Each store transaction is one step.

## Where code and intent differ

- The bit `core_roster_accept` returns clears for any document that names the root
  as signer at a higher epoch, even if it is then refused. The documentation says
  it clears on acceptance. `PiercingClearsUnaccepted` is an input over a valid stored
  roster, `BitClearsOnlyOnAcceptance` the exact condition. The store keeps its own bit
  on `Ignored`, so no run loses a quarantine this way (`QuarantineHolds`).
- Across recovery epochs delivery order matters. `EpochOrderMattersSomewhere` is an
  honest history with two orders that end differently, `ConvergesExactly` the exact
  condition; inside one epoch every order converges (`OneEpochConverges`).
- A row in a device's namespace can be deleted by a sibling (against ACK-MD-1) when the
  sibling's fleet does not list that device, because its hint is then foreign and its
  body opens. `UnlistedDeviceRowAcked` is an input, `UnlistedDeviceLosesRow` a run,
  `OthersRowAckedExactly` and `PollDeletesExactly` the exact conditions, and
  `DeviceRowsOnlyByDevice` the rule wherever the polling siblings list the device.
- A row of a later day than the polling clock loses the protection of its class: a
  fleet's shared row, a sibling's, a group's. `ClockBehindAcksSharedRow` is an input,
  `OthersRowAckedExactly` and `PollDeletesExactly` the exact conditions.
- Hidden rows already offered still spend the fetch budget, so the incremental
  fetch can select less than fetching everything. `OfferedRowStarvesOthers` is an
  input, `PlanAgainstIdeal` the exact condition.
- Group updates do not commute when one author is let in by the other update, when
  there is room for either but not both, or when one person renames the group to two
  names from one revision, as on two phones. `LettingInMatters`, `RoomRunsOut` and
  `RenamedTwice` are inputs, `CommuteExactly` the exact condition for any two updates.
- A legacy payload that looks like a bound transcript, or a body of 2^32 bytes and
  more, does not open again. `SignedStaysShut` gives one of each, `SignPadOpen` the
  exact condition.
- The carry window is eight days back, the lifetime and one day of skew.

## Model

| member | source | states |
|---|---|---|
| `RosterPreimages.PreimagesInjective` | core/src/device_roster.rs:344-574 | equal signed bytes mean same family (raw message, certificate, roster), same domain and same covered fields |
| `RosterPreimages.DomainsSeparate` | core/src/device_roster.rs:144-166 | no context string is a prefix of another, so the domain and what follows can be read back |
| `RosterPreimages.BuildRosterSignedBytes` | core/src/device_roster.rs:554-574 | pushing the fields and the two lists in loops builds the roster pre-image that injectivity is proved of |
| `Bytes.BigEndianSpelled` | core/src/device_roster.rs:390-400 | integers are written most significant byte first, byte by byte |
| `RosterPreimages.CertBodyLaidOut` | core/src/device_roster.rs:439-452 | the offset of every certificate field, lengths in eight bytes |
| `RosterPreimages.CertListLaidOut` | core/src/device_roster.rs:560-566 | certificates in document order, each behind its length, its signature last |
| `RosterPreimages.TombstoneListLaidOut` | core/src/device_roster.rs:567-571 | burials in document order, id behind its length, then the sequence number |
| `RosterPreimages.RosterLaidOut` | core/src/device_roster.rs:554-574 | the offset of the context, the header, the lists and the closing fields |
| `RosterPreimages.PreimagesLaidOut` | core/src/device_roster.rs:344-350 | a certificate's and a raw message's context and what follows it |
| `RosterCodec.CodecBijection` | core/src/device_roster.rs:642-813 | bytes decode to a roster if and only if that roster encodes to exactly those bytes |
| `RosterCodec.WireCertLaidOut` | core/src/device_roster.rs:648-656 | the offset of every certificate field on the wire, lengths in two bytes |
| `RosterCodec.WireLaidOut` | core/src/device_roster.rs:642-660 | the offset of the version byte, the header and the lists |
| `RosterCodec.WireEndLaidOut` | core/src/device_roster.rs:657-666 | the offset of the fields of a burial and of the closing fields |
| `RosterCodec.EncodableSpelled` | core/src/device_roster.rs:727-749 | encoding succeeds if and only if every length and count is at most 65,535 |
| `RosterCodec.RosterCursor.Take` | core/src/device_roster.rs:761-775 | reading past the end fails and moves nothing; otherwise exactly the next bytes are taken |
| `RosterCodec.RosterCursor.TakeCerts` | core/src/device_roster.rs:685-700 | the certificate loop parses as the list codec does, wherever it fails |
| `RosterCodec.RosterCursor.TakeTombstones` | core/src/device_roster.rs:701-708 | the same of the tombstone loop |
| `RosterCodec.DecodeRoster` | core/src/device_roster.rs:674-725 | the cursor program computes the decoder of the bijection, trailing bytes and truncation included |
| `RosterCodec.EncodeRoster` | core/src/device_roster.rs:642-670 | the pushing program computes the encoder of the bijection, and fails exactly when a length or count exceeds 16 bits |
| `RosterValidation.VouchFixpoint` | core/src/device_roster.rs:987-1015 | the loop ends and marks exactly the certificates with a finite signer path through listed devices to the root |
| `RosterValidation.ClosedGroupNeverChains` | core/src/device_roster.rs:987-1015 | certificates that vouch only for each other or themselves are never marked |
| `RosterValidation.OrderIrrelevant` | core/src/device_roster.rs:987-1015 | reordering the document reorders the marks and changes none |
| `RosterValidation.JudgedExactly` | core/src/device_roster.rs:897-1034 | every verdict is returned if and only if the document calls for it: each rejection by the stages passed and where it fell, at the first unclean device or burial, stated on the document's fields |
| `RosterValidation.ValidIffNoRejection` | core/src/device_roster.rs:897-1034 | no check rejects if and only if the roster is valid: distinct unburied devices, one approver with the one signing role, verified certificates all chained to the root, authorised signature |
| `RosterValidation.ScanDevices` | core/src/device_roster.rs:920-940 | the id-list scan reports the first device fault and otherwise the device ids |
| `RosterValidation.ScanTombstones` | core/src/device_roster.rs:942-954 | the scan reports the first tombstone fault |
| `RosterValidation.CheckApprover` | core/src/device_roster.rs:955-978 | missing approver, role mismatch and bad certificate signature, in that precedence, and the approver's index |
| `RosterValidation.CheckAuthority` | core/src/device_roster.rs:955-1034 | the approver, chain, signer, genesis and signature checks compute the part of the verdict that `JudgedExactly` characterises |
| `RosterValidation.Validate` | core/src/device_roster.rs:897-1034 | the whole program returns the verdict that `JudgedExactly` characterises |
| `RosterAcceptance.ScanBurials` | core/src/device_roster.rs:1383-1395 | the tombstone loop answers exactly whether every stored burial is kept and none is active again |
| `RosterAcceptance.JudgeOrdering` | core/src/device_roster.rs:1285-1414 | the rules in the order the code asks them, each past the ones before, compute the verdict of the step theorems |
| `RosterAcceptance.RosterAccept` | core/src/device_roster.rs:1202-1224 | the verdict with the device count stamped on every path is the decision the run theorems are about |
| `RosterAcceptance.StepEffect` | core/src/device_roster.rs:1285-1414 | one step from a sound state, for every document: what is stored afterwards, under quarantine and not |
| `RosterAcceptance.ReasonedExactly` | core/src/device_roster.rs:1285-1414 | every reason is given if and only if the two documents call for it, the million-version ceiling included, from any sound state |
| `RosterAcceptance.ReasonDecides` | core/src/device_roster.rs:1167-1215 | outcome, bit, rejection and device-count answer as the reason and the count decide them |
| `RosterAcceptance.OtherPersonRefused` | core/src/device_roster.rs:1314-1317 | a valid document of another person than the one stored is refused as such |
| `RosterAcceptance.StepKeepsSound` | core/src/device_roster.rs:1285-1414 | every step keeps the stored roster valid and undoes nothing of the one before |
| `RosterAcceptance.RunRatchets` | core/src/device_roster.rs:1285-1414 | between any two moments of any run: strictly higher version or no change, burials kept, buried devices never active, inbox generation not falling within an epoch |
| `RosterAcceptance.EpochStep` | core/src/device_roster.rs:1369-1377 | one step raises the epoch only to that of a valid document verified under the root |
| `RosterAcceptance.EpochRisesByRoot` | core/src/device_roster.rs:1369-1377 | in every run the epoch never falls, and rises only if a valid document verified under the root carried that epoch |
| `RosterAcceptance.QuarantineStep` | core/src/device_roster.rs:1270-1300 | under quarantine a document changes anything if and only if it is root-signed, valid, of a higher epoch and replaces what is stored |
| `RosterAcceptance.QuarantineHolds` | core/src/device_roster.rs:1270-1300 | from a fork onward nothing moves in any run without such a document |
| `RosterAcceptance.ReturnedBit` | core/src/device_roster.rs:1183-1192 | the returned quarantine bit, exactly |
| `RosterAcceptance.PiercingClearsUnaccepted` | core/src/device_roster.rs:1260-1304 | a valid stored roster and a document on which the bit clears without acceptance |
| `RosterAcceptance.BitClearsOnlyOnAcceptance` | core/src/device_roster.rs:1260-1304 | the documents for which the bit clears only on acceptance, exactly |
| `RosterAcceptance.EqualVersionsForkExactly` | core/src/device_roster.rs:1328-1344 | at equal versions a repeat is recognised if and only if the documents agree on all but the signature; anything else is a fork |
| `RosterAcceptance.ContactRosterStore.constructor` | core/src/store.rs:6183-6190 | a person nothing is stored for has no roster and no quarantine |
| `RosterAcceptance.ContactRosterStore.ApplyContactRoster` | core/src/store.rs:6062-6160 | a stranger's document changes nothing; a contact's takes that person's state one step under their own root key and no one else's; a refusal by count survives and the warning does not; the relay stamp resets exactly on accepting a higher epoch |
| `RosterAcceptance.ContactRosterStore.ClearRosterQuarantine` | core/src/store.rs:6174-6181 | clearing by hand lowers that person's bit only, and reports whether it was set |
| `RosterConvergence.HonestRun` | core/src/device_roster.rs:1306-1414 | on an honest history any delivery never quarantines, and stores what a one-line rule names |
| `RosterConvergence.NewestHeldExactly` | core/src/device_roster.rs:1306-1414 | that rule ends at the newest roster if and only if it arrived at a moment it could be taken |
| `RosterConvergence.ConvergesExactly` | core/src/device_roster.rs:1306-1414 | convergence across epochs for every order and repetition, as an if and only if |
| `RosterConvergence.OneEpochConverges` | core/src/device_roster.rs:1306-1414 | within one epoch every order and repetition ends with the newest delivered roster stored |
| `RosterConvergence.EpochOrderMatters` | core/src/device_roster.rs:1369-1377 | under an honest history, two acceptance runs over the same three documents that end with different rosters stored |
| `RosterConvergence.EpochOrderMattersSomewhere` | core/src/device_roster.rs:1369-1377 | valid, mutually consistent documents of that kind |
| `RosterSamples.SampleValid` | core/src/device_roster.rs:897-1034 | a one-device roster signed by the root, or past genesis by its device, is valid |
| `RelayMailbox.PlanAcks` | core/src/engine.rs:1321-1411 | the planning loop computes the plan the protocol theorems are about |
| `RelayMailbox.PlannedIds` | core/src/engine.rs:1321-1411 | a relay id is planned if and only if some fetched item with that id may be acked |
| `RelayMailbox.AcksExactly` | core/src/engine.rs:1335-1411 | what is acked, for every view, on hint, window, fleet, groups and evidence |
| `RelayMailbox.GroupRowsReach` | core/src/engine.rs:268-286 | one row per member in order under that member's hint of the day, exactly the members reached, ids and hints distinct |
| `RelayMailbox.DeviceRowsReach` | core/src/engine.rs:349-371 | one row per device in order under that device's hint of the day |
| `RelayMailbox.OthersExactly` | core/src/engine.rs:1205-1212 | the siblings are the listed devices other than this one |
| `RelayMailbox.OutboundRowsReach` | core/src/engine.rs:1159-1224 | refused exactly for a group address; the stored row below two known devices, else one per known device; then one per sibling when there is a body for them |
| `RelayMailbox.WindowCovers` | core/src/recipient_hints.rs:56-63 | the window covers every live row of at most the authored lifetime, with a day to spare |
| `RelayMailbox.Classified` | core/src/recipient_hints.rs:181-203 | a hint's class from whom it addresses and its day alone |
| `RelayMailbox.GroupHinted` | core/src/engine.rs:1335-1346 | a hint counts as a group's shared hint exactly when it is one of an imported group, inside the window |
| `RelayMailbox.UnlinkedPlansTodaysAcks` | core/src/engine.rs:1284-1320 | an install that never linked acks exactly what the single-device rule did |
| `RelayMailbox.OthersRowAckedExactly` | core/src/engine.rs:1338-1371 | a consumed shared row of a fleet or of a group is acked if and only if its day is outside the window; another device's row also if and only if this fleet does not list it |
| `RelayMailbox.ClockBehindAcksSharedRow` | core/src/engine.rs:1361-1375 | an input on which a clock one day behind acks the shared row |
| `RelayMailbox.UnlistedDeviceRowAcked` | core/src/engine.rs:1361-1375 | an input on which either of two listed devices acks the row of an unlisted third |
| `RelayProtocol.RowsWellAddressed` | core/src/engine.rs:1159-1224 | every uploaded row is addressed to whom it is sealed for, and its day fits its expiry |
| `RelayProtocol.InvKept` | core/src/engine.rs:1159-1411 | every install, link, regroup, learn, post, poll and prune keeps rows addressed, fleets valid and evidence true |
| `RelayProtocol.InvAlways` | core/src/engine.rs:1159-1411 | so in every state of every run |
| `RelayProtocol.AckedExactly` | core/src/engine.rs:1321-1411 | a phone acks a row only if it is the addressed consumer by its own view, or does not list the addressed device, or its clock is behind a row it can open; a consumed row if and only if |
| `RelayProtocol.RowLeaves` | core/src/engine.rs:1321-1411 | one step removes a row only by expiry or by a poll so entitled, and changes no other |
| `RelayProtocol.PollDeletesExactly` | core/src/engine.rs:1321-1411 | in every reachable state the poll that consumes a live row removes it if and only if the phone is so entitled |
| `RelayProtocol.OnlyEntitledDelete` | core/src/recipient_hints.rs:325-382 | in every run, with phones linking and regrouping as they like, a row that is gone was taken out by one particular action: a prune after its expiry, or a poll of a phone so entitled by its own view at that poll |
| `RelayProtocol.SharedRowsOnlyExpire` | specs/multi-device-v1.md:230-236 | in every run in which each polling phone of the person knows of a second device, and no polling phone that can open the row has a clock before its day: a group's shared row or the person row is taken out only by a prune after its expiry |
| `RelayProtocol.DeviceRowsOnlyByDevice` | specs/multi-device-v1.md:230-231 | in every run in which each polling phone of the person lists the device, and none that can open the row has a clock before its day: the row is taken out only by a prune after its expiry or by a poll of that device of that person |
| `RelayProtocol.UnlistedDeviceLosesRow` | core/src/engine.rs:1361-1375 | a run in which a poll of a sibling takes out the row of a device it does not list, which never polls |
| `RelayProtocol.AllPlaced` | core/src/engine.rs:1159-1224 | from any reachable state, after all rows of an upload are posted each of them waits in the mailbox |
| `RelayProtocol.GroupMessageReaches` | core/src/engine.rs:268-286 | then every member's phone that has the group finds its own copy under a hint it polls and can open it, on every day of the row's life |
| `RelayProtocol.DeviceMessageReaches` | core/src/engine.rs:1159-1224 | then the phone of every known device, and of every sibling there is a body for, finds its own copy likewise |
| `SpraySelection.AffordableIsLongest` | core/src/engine.rs:692-714 | no longer prefix fits the budget than the greedy one |
| `SpraySelection.SelectRecipient` | core/src/engine.rs:700-712 | one recipient's rows advance the selection by its eligible prefix, or complete it |
| `SpraySelection.SelectOwnOutbound` | core/src/engine.rs:692-714 | the loop returns the longest prefix of unexpired, unknown rows across recipients that fits |
| `SpraySelection.FetchBudgeted` | core/src/store.rs:8213-8262 | the fetch returns the longest affordable eligible prefix, and says exhausted exactly when something was left |
| `SpraySelection.FilterHidden` | core/src/engine.rs:872-886 | which fetched rows stay, and which ids are noted as offered |
| `SpraySelection.Spend` | core/src/engine.rs:887-890 | the budget left, saturating at zero |
| `SpraySelection.DigestSpray` | core/src/engine.rs:829-915 | the program computes the plan and the reported ids of the session theorems |
| `SpraySelection.PlanAgainstIdeal` | core/src/engine.rs:853-902 | the incremental fetch gives a prefix of fetching everything; all of it if and only if it stops tight; always when the filter drops nothing |
| `SpraySelection.RowsSpelled` | core/src/protocol.rs:585-600 | eligible, bounded and kept rows by expiry, known ids, the six hidden kinds and acknowledged kinds |
| `SpraySelection.BacklogRowsExactly` | core/src/engine.rs:853-872 | what is up for spraying is exactly the unexpired, unknown rows of contacts other than the peer |
| `SpraySelection.SprayedExactly` | core/src/engine.rs:829-915 | what goes out meets those conditions and the budget; with room for every backlog, exactly what meets them goes out |
| `SpraySelection.OfferedRowStarvesOthers` | core/src/engine.rs:853-902 | an input on which it gives less |
| `SpraySelection.ReselectionIsIdentity` | core/src/engine.rs:897-902 | the second selection over what was fetched drops nothing |
| `SpraySelection.OfferedExactly` | core/src/engine.rs:837-915 | the ids fed back are exactly those sprayed of bounded kinds; what the budget left behind is not among them |
| `SpraySelection.SprayedOncePerSession` | core/src/engine.rs:837-915 | over all rounds of a session a bounded hidden row goes out at most once |
| `SpraySelection.SprayedOncePerRound` | core/src/engine.rs:853-902 | and no row twice within a round |
| `ByteOrder.CanonicalLists` | core/src/groups.rs:498-502 | canonicalizing gives an ascending list of exactly the same ids |
| `ByteOrder.AscendingUnique` | core/src/groups.rs:498-502 | and there is only one such list |
| `ByteOrder.BelowSpelled` | core/src/groups.rs:498-502 | ids are ordered by the first byte in which they differ, a prefix first |
| `GroupMetadata.ApplyExactly` | core/src/groups.rs:218-271 | for any sender: accepted if and only if sender, author, group, shapes and the union of 64 agree; "no effect" if and only if nothing is added and nothing renamed; otherwise the resulting group, field by field |
| `GroupMetadata.JoinUnique` | core/src/groups.rs:218-271 | an order-free description of what updates come to has one solution |
| `GroupMetadata.TakeAllJoins` | core/src/groups.rs:218-271 | applying updates in any order reaches it, and every step stays valid |
| `GroupMetadata.Converges` | core/src/groups.rs:218-271 | any two deliveries of the same updates leave the same group, with every member, and redelivery of any has no effect |
| `GroupMetadata.RedeliveryHasNoEffect` | core/src/groups.rs:218-271 | an update already joined is reported as no effect |
| `GroupMetadata.TakenExactly` | core/src/groups.rs:218-271 | an update of the group by a member, with room for the union, is merged in; any other leaves the group as it was |
| `GroupMetadata.CommuteExactly` | core/src/groups.rs:218-271 | any two updates of a group commute if and only if they do not compete for the last room, do not rename it differently under one stamp, and neither author is let in by the other while still having something to add |
| `GroupMetadata.LettingInMatters` | core/src/groups.rs:218-271 | two updates that end differently in the two orders, one author let in by the other |
| `GroupMetadata.RoomRunsOut` | core/src/groups.rs:218-271 | two updates by one member that end differently, each fitting 64 members alone |
| `GroupMetadata.RenamedTwice` | core/src/groups.rs:175-271 | two renames by one member from one revision that end differently |
| `GroupMetadata.CreatedExactly` | core/src/groups.rs:175-213 | authoring succeeds if and only if author, name, members and revision allow it, and asks for just that, one revision on |
| `GroupMetadata.AuthoredUpdateApplies` | core/src/groups.rs:175-213 | an authored update always takes effect on its group and gives exactly the name and members asked for |
| `SeenIds.SeenIds.constructor` | core/src/gossip.rs:55-63 | empty, with a capacity of at least one |
| `SeenIds.SeenIds.Insert` | core/src/gossip.rs:65-73 | index and queue stay the same distinct ids within capacity, the oldest evicted |
| `SeenIds.SeenIds.CheckAndRecord` | core/src/gossip.rs:99-115 | new exactly when not queued, and recorded either way |
| `SeenIds.SeenIds.Contains` | core/src/gossip.rs:126-131 | membership of the queue, nothing changed |
| `SeenIds.SeenIds.Record` | core/src/gossip.rs:137-142 | recording without asking |
| `SeenIds.SeenIds.Len` | core/src/gossip.rs:145-151 | the number of distinct ids, within capacity |
| `SeenIds.QueueSound` | core/src/gossip.rs:65-142 | over every run the queue is duplicate-free and within capacity |
| `SeenIds.HeldOrCrowdedOut` | core/src/gossip.rs:65-142 | at every later moment an id is held in front of exactly what came in since, or a full queue of others came in |
| `SeenIds.NewAgainExactly` | core/src/gossip.rs:99-142 | an id is reported new again if and only if at least capacity distinct others were newly recorded since |
| `SeenIds.NewTwiceMeansCrowdedOut` | core/src/gossip.rs:99-142 | between any two reports of one id as new lie at least capacity distinct others |
| `SignedBody.BuildTranscript` | core/src/crypto.rs:137-171 | the pushed buffer is the transcript, and an overlong field is an error |
| `SignedBody.TranscriptLaidOut` | core/src/crypto.rs:130-161 | the offset of every field a signature covers, and when there is no transcript |
| `SignedBody.LooksBoundExactly` | core/src/crypto.rs:173-186 | the legacy rule refuses a payload if and only if it begins with the length and text of a domain |
| `SignedBody.BoundTranscriptsInjective` | core/src/crypto.rs:130-161 | equal bound transcripts mean same binding, same key, same payload |
| `SignedBody.BoundTranscriptLooksBound` | core/src/crypto.rs:173-186 | every bound transcript is a payload the legacy rule refuses |
| `SignedBody.OpenedWasSigned` | core/src/crypto.rs:318-352 | whatever opens was signed under that very binding, or its transcript was signed as a legacy payload |
| `SignedBody.BoundOpensExactlyThere` | core/src/crypto.rs:318-352 | a bound signature in any body, under any rule, opens if and only if binding and payload are its own |
| `SignedBody.OpenExactly` | core/src/crypto.rs:318-352 | for any bytes: which of the two errors or what payload, if and only if, on the 32 bytes of key, 64 of signature and the rest |
| `SignedBody.SignPadOpen` | core/src/crypto.rs:302-352 | opening returns what was signed if and only if the body's length fits 32 bits and a legacy payload does not look bound |
| `SignedBody.SignedStaysShut` | core/src/crypto.rs:302-371 | a legacy payload and a bound body that are signed and do not open again |
| `SignedBody.SignAndPad` | core/src/crypto.rs:302-316 | fails exactly on a wrong secret-key length or an overlong field, else the padded signed body |
| `SignedBody.PadToBucket` | core/src/crypto.rs:354-361 | the growing buffer is the padded form |
| `SignedBody.LengthTellsBucketOnly` | core/src/crypto.rs:354-361 | padded lengths are the least multiple of 256 that holds the data, and agree if and only if the buckets do |
| `SignedBody.UnpadInvertsPad` | core/src/crypto.rs:354-375 | unpadding returns the data up to its 32-bit length, all of it if and only if that is its length |
| `SignedBody.UnpadExactly` | core/src/crypto.rs:363-375 | for any bytes: the length least byte first, and exactly that much of what follows, or an error |
| `SignedBody.PaddedLaidOut` | core/src/crypto.rs:354-361 | the data behind four bytes, and zeros up to the bucket |
| `Reassembly.FrameComesOut` | core/src/framing.rs:83-118 | from any state a frame's pieces in order give nothing until the last and then exactly the frame |
| `Reassembly.DeliveredFramesSpelled` | core/src/framing.rs:83-118 | in every run a delivered frame is the concatenation of the last total inputs, numbered 0 to total - 1 of one frame, and no more than the limit is ever held |
| `Reassembly.ChunksJoin` | core/src/framing.rs:35-57 | cutting a frame loses nothing |
| `BleFraming.FragmentBleFrame` | core/src/framing.rs:35-57 | the loop builds the fragments of the round trip |
| `BleFraming.FragmentsFit` | core/src/framing.rs:35-57 | fragmenting fails exactly on a frame over 524,322 bytes or over 65,535 full payloads, and each fragment fits the link payload |
| `BleFraming.FragmentsLaidOut` | core/src/framing.rs:35-57 | each fragment tells its index and the count and carries the next bytes of the frame, all before the last filling the link payload |
| `BleFraming.BleRoundTrip` | core/src/framing.rs:35-118 | a frame's fragments fed to a reassembler in any state give exactly that frame, after the last |
| `BleFraming.BleFrameReassembler.AcceptFragment` | core/src/framing.rs:83-118 | the in-place update is a step of the reassembly machine, and answers with the frame exactly on completion |
| `BleFraming.BleFrameReassembler.constructor` | core/src/framing.rs:74-79 | starts holding nothing |
| `LanSession.LanRecordLayer.EncryptFrame` | core/src/lan_session.rs:204-241 | fails exactly on an overlong frame or before the handshake is done; spends a frame id, wrapping; gives the records of the round trip |
| `LanSession.LanRecordLayer.DecryptRecord` | core/src/lan_session.rs:246-312 | the in-place update is a step of the reassembly machine on what decrypts, and nothing on what does not |
| `LanSession.RecordsFitNoise` | core/src/lan_session.rs:204-241 | every record fits the largest Noise message |
| `LanSession.PlaintextLaidOut` | core/src/lan_session.rs:226-232 | the offset of every field of a record, and which plaintexts are no record |
| `LanSession.RecordsLaidOut` | core/src/lan_session.rs:222-238 | record i seals the i-th 61,431 bytes of the frame, the last the remainder |
| `LanSession.FrameIdsDiffer` | core/src/lan_session.rs:212-213 | consecutive frames have different ids, across the wrap |
| `LanSession.ReceiveRefuses` | core/src/lan_session.rs:246-266 | an oversized or undecryptable record is an error that changes nothing; any other uses up one message |
| `LanSession.ReceivingReassembles` | core/src/lan_session.rs:246-312 | reading any records delivers what reassembling those that decrypt does |
| `LanSession.HandedUpIsOneFrame` | core/src/lan_session.rs:246-312 | over any records a frame handed up is made of records of one frame id with indices 0 to total - 1 |
| `LanSession.FramesComeOutInOrder` | core/src/lan_session.rs:204-312 | any list of frames comes out as it went in, whatever was held before and wherever frame ids wrap |
| `AuthoredLamport.AuthoringStore.MaxLamport` | core/src/authoring.rs:819-822 | the scan finds the stream's highest stored lamport |
| `AuthoredLamport.HighestIsMaximum` | core/src/authoring.rs:819-822 | and no stored row of the stream is above it |
| `AuthoredLamport.AuthoringStore.NextAuthoredLamport` | core/src/authoring.rs:814-854 | the next lamport and the delivered watermark, as the run theorems use them |
| `AuthoredLamport.AuthoringStore.RecordAuthoredWatermark` | core/src/authoring.rs:1022-1039 | the watermark becomes the larger of itself and the lamport |
| `AuthoredLamport.AuthoringStore.InsertAuthoredRows` | core/src/authoring.rs:1080-1110 | watermark raised and row inserted unless present |
| `AuthoredLamport.AuthoringStore.AuthorMessage` | core/src/authoring.rs:60-100 | one transaction: allocate, raise, insert |
| `AuthoredLamport.AuthoringStore.RecordReceipt` | core/src/store.rs:4302-4340 | an invalid type or watermark is refused and changes nothing; else the watermark only climbs |
| `AuthoredLamport.AuthoringStore.DeleteConversation` | core/src/store.rs:5941-5980 | rows and receipts of the chat go, watermarks stay |
| `AuthoredLamport.AuthoringStore.Wipe` | core/src/store.rs:2103-2126 | all rows and receipts go, watermarks stay |
| `AuthoredLamport.NextExceedsStored` | core/src/authoring.rs:814-854 | the next lamport exceeds a stored receipt watermark, row or authored watermark if and only if that is below the ceiling |
| `AuthoredLamport.NextIsLeast` | core/src/authoring.rs:814-854 | the next lamport is the least positive one above everything stored, or the ceiling |
| `AuthoredLamport.StepSpelled` | core/src/store.rs:5941-5980 | what each event does to the three tables, entry by entry |
| `AuthoredLamport.LamportsIncrease` | core/src/authoring.rs:814-1110 | over every run, deletions and wipes included, lamports of one stream never fall, and rise if and only if the earlier is below the ceiling |
| `AuthoredLamport.OtherStreamsUnmoved` | core/src/authoring.rs:814-854 | an event about one stream leaves every other stream's next lamport alone |
| `People.GroupPeople` | core/src/connection_health.rs:725-799 | the loop and the three sorts compute the page of the theorems below |
| `People.SortBySorts` | core/src/connection_health.rs:763-793 | sorting gives the same elements in order |
| `People.PlacedExactly` | core/src/connection_health.rs:672-760 | a person's group and reach, if and only if, on links, presence, relay and attention |
| `People.RanksExactly` | core/src/connection_health.rs:643-652 | the order of the four reasons |
| `People.NewestEvidenceExactly` | core/src/connection_health.rs:703-706 | the larger of the two stamps, or zero |
| `People.ListedExactly` | core/src/connection_health.rs:725-799 | each unblocked person is in exactly the list of their group, as often as given; a blocked person in none; each list is in its order |
| `People.DocumentedOrder` | core/src/connection_health.rs:708-722 | the documented order of each list in its own words, names and user-id tie-break included |
| `People.GroupingIgnoresOrder` | core/src/connection_health.rs:725-806 | when a user id names one person, every permutation of the input gives the same page |

## Left out

- Ed25519, X25519, AEADs, BLAKE2b and the Noise XX handshake: library calls, passed in as functions.
- SQL, mutexes and FFI: tables are sequences and maps, transactions single steps.
- Error message texts: errors of one kind are one value.
- The roster module's key generation, signing helpers, own-identity pairing and LAN sibling proofs: thin wrappers around what is modelled.
- The link gate, carry-queue paging, supersession, the receipts and carried lanes of the spray plan, frame encoding and hop counts.
- Library sorting in place: `sort`, `dedup` and the stable `sort_by` are insertion functions on sequences, proved sorted, complete and unique; the order of their comparisons and moves is not modelled.
- Unicode: trimming (`GroupMetadata`) and lower-casing (`People`) are functions passed in.
- backup, content, invite and card codecs: simpler length-prefixed layouts than the roster's.
- Health, delivery and late-arrival classifiers: case tables and thresholds.
- RelayProtocol.OnlyEntitledDelete: assumes that one message id names one body, that a phone reports a row consumed only if it can open it, a group's body only under its person's or the group's hint, and that expired rows are reported expired. It assumes nothing about what phones know of each other: two phones of one person that each hold a fleet of fewer than two both count as its addressed consumer.
- RelayProtocol.DeviceMessageReaches: asks that no device is both a sibling of the sender and a device of the recipient; it and `GroupMessageReaches` ask that the rows' ids were never used for another body, and speak of the mailbox right after the posts, before any poll or prune.
- Fleet records (`RelayProtocol`): a record is replaced by any valid one; the version order the store also asks of it would only allow fewer runs.
- RosterAcceptance.ContactRosterStore.ApplyContactRoster: the safety facts recorded beside an accepted roster, and deleting a contact together with their roster, are not modelled.
- RelayMailbox.PlanAcks: takes the fleet, groups and durable evidence as one consistent view; a store read that fails midway is not modelled.
- SpraySelection.DigestSpray: requires that the bytes of one contact's rows sum to less than 2^64, which memory guarantees, so the saturating sums are exact.
- GroupMetadata.Converges: requires senders that are members already, a union of at most 64 members and one name per stamp, as the design does; `CommuteExactly` says what each is worth for two updates.
- LanSession.FramesComeOutInOrder: requires a channel that opens messages in the order they were sealed; nonce exhaustion is not modelled.
- AuthoredLamport.LamportsIncrease: other columns of the rows, the outbound queue and causal timestamps are not modelled.
