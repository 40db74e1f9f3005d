/** The shared relay mailbox: how rows are addressed when uploaded, which fetched
    rows a device may delete, and when it deletes a row that others still need
    (core/src/engine.rs:349-371, 1159-1411; core/src/recipient_hints.rs:56-63,
    181-203, 340-382). Hashes are symbolic: a hint is the pair it is computed from,
    and a fan-out id the original with whom it is for. */
module RelayMailbox {
  import opened Bytes

  type Person = nat
  type DeviceId = nat
  type GroupId = nat

  const MS_PER_DAY := 86_400_000
  const DEFAULT_EXPIRY_MS := 7 * MS_PER_DAY
  const CARRY_HINT_SKEW_DAYS := 1
  const CARRY_HINT_DAY_WINDOW_DAYS := DEFAULT_EXPIRY_MS / MS_PER_DAY + CARRY_HINT_SKEW_DAYS

  datatype RoutingId = OfPerson(person: Person) | OfDevice(person: Person, device: DeviceId) | OfGroup(group: GroupId)
  datatype Hint = Hint(id: RoutingId, day: int)
  datatype MsgId =
    | Original(n: nat)
    | ForMember(original: MsgId, member: Person)
    | ForDevice(original: MsgId, device: DeviceId)

  /** Who a sealed body opens for. */
  datatype Body = Pairwise(person: Person) | GroupSealed(group: GroupId)

  function Day(ms: int): int {
    ms / MS_PER_DAY
  }

  function RecipientHint(id: RoutingId, timestamp: int): Hint {
    Hint(id, Day(timestamp))
  }

  /** `core_device_namespace_id`: no device id is the person's own namespace. */
  function Namespace(p: Person, device: Option<DeviceId>): RoutingId {
    if device.None? then OfPerson(p) else OfDevice(p, device.value)
  }

  /** `OwnDeviceFleet`: what one installation holds of its person's devices. */
  datatype Fleet = Fleet(own: Option<DeviceId>, devices: seq<DeviceId>)

  /** `validate_own_device_fleet`, as far as the ids go. */
  predicate ValidFleet(f: Fleet) {
    && (forall i, j :: 0 <= i < j < |f.devices| ==> f.devices[i] != f.devices[j])
    && if f.own.Some? then f.own.value in f.devices else f.devices == []
  }

  /** The fleet without this device, in its order. */
  function Siblings(f: Fleet): seq<DeviceId> {
    Others(f.devices, f.own)
  }

  function Others(devices: seq<DeviceId>, own: Option<DeviceId>): seq<DeviceId> {
    if devices == [] then []
    else (if Some(devices[0]) == own then [] else [devices[0]]) + Others(devices[1..], own)
  }

  // ---- Uploading ----

  datatype FanoutRow = FanoutRow(msgId: MsgId, expiry: int, hint: Hint, body: Body)

  /** A queued 1:1 envelope. `recipient` may turn out to name a group. */
  datatype Envelope = Envelope(
    msgId: MsgId, recipient: RoutingId, timestamp: int, expiry: int, hint: Hint, body: Body)

  function DeviceFanoutRows(
      original: MsgId, person: Person, devices: seq<DeviceId>, expiry: int, body: Body, timestamp: int)
    : (rows: seq<FanoutRow>)
  {
    seq(|devices|, i requires 0 <= i < |devices| =>
      FanoutRow(ForDevice(original, devices[i]), expiry,
                RecipientHint(Namespace(person, Some(devices[i])), timestamp), body))
  }

  function GroupFanoutRows(
      original: MsgId, members: seq<Person>, expiry: int, body: Body, timestamp: int)
    : (rows: seq<FanoutRow>)
  {
    seq(|members|, i requires 0 <= i < |members| =>
      FanoutRow(ForMember(original, members[i]), expiry, RecipientHint(OfPerson(members[i]), timestamp), body))
  }

  /** `core_outbound_relay_rows`: one person-addressed row, or one row per device
      of a recipient known to have several; then one per sibling when there is a
      body for them. A group envelope is refused. */
  function OutboundRows(
      e: Envelope, recipientDevices: seq<DeviceId>, own: Person, fleet: Fleet, siblingBody: Option<Body>)
    : Result<seq<FanoutRow>>
  {
    if !e.recipient.OfPerson? then Malformed
    else
      var rows :=
        if |recipientDevices| < 2 then [FanoutRow(e.msgId, e.expiry, e.hint, e.body)]
        else DeviceFanoutRows(e.msgId, e.recipient.person, recipientDevices, e.expiry, e.body, e.timestamp);
      Ok(if siblingBody.None? then rows
         else rows + DeviceFanoutRows(e.msgId, own, Siblings(fleet), e.expiry, siblingBody.value, e.timestamp))
  }

  // ---- Whom the rows reach ----

  /** One row per member, in order, each under its own member's hint of the day the
      envelope was made, with expiry and body as given; the members are exactly those
      reached, and different members' rows differ in id and in hint. */
  lemma GroupRowsReach(original: MsgId, members: seq<Person>, expiry: int, body: Body, timestamp: int)
    ensures var rows := GroupFanoutRows(original, members, expiry, body, timestamp);
            && |rows| == |members|
            && (forall i :: 0 <= i < |rows| ==>
                  && rows[i].hint == Hint(OfPerson(members[i]), timestamp / 86_400_000)
                  && rows[i].msgId == ForMember(original, members[i])
                  && rows[i].expiry == expiry && rows[i].body == body)
            && (set i | 0 <= i < |rows| :: rows[i].hint.id) == (set i | 0 <= i < |members| :: OfPerson(members[i]))
            && (forall i, j :: 0 <= i < j < |rows| && members[i] != members[j] ==>
                  rows[i].msgId != rows[j].msgId && rows[i].hint != rows[j].hint)
  {
  }

  /** The row of one device of a person, as it is to be uploaded. */
  function RowFor(original: MsgId, person: Person, d: DeviceId, expiry: int, body: Body, timestamp: int): FanoutRow {
    FanoutRow(ForDevice(original, d), expiry, Hint(OfDevice(person, d), timestamp / 86_400_000), body)
  }

  lemma DeviceRowsReach(
      original: MsgId, person: Person, devices: seq<DeviceId>, expiry: int, body: Body, timestamp: int)
    ensures var rows := DeviceFanoutRows(original, person, devices, expiry, body, timestamp);
            && |rows| == |devices|
            && forall i :: 0 <= i < |rows| ==> rows[i] == RowFor(original, person, devices[i], expiry, body, timestamp)
  {
  }

  /** The siblings are the listed devices other than this one. */
  lemma {:induction false} OthersExactly(devices: seq<DeviceId>, own: Option<DeviceId>, d: DeviceId)
    ensures d in Others(devices, own) <==> d in devices && Some(d) != own
  {
    if devices == [] {
    } else {
      OthersExactly(devices[1..], own, d);
    }
  }

  /** A one-to-one envelope: for a person address only; the envelope's own row as it is
      stored when fewer than two devices are known, else one row per known device; then,
      given a body for them, one row per sibling. */
  lemma OutboundRowsReach(e: Envelope, known: seq<DeviceId>, own: Person, fleet: Fleet, siblingBody: Option<Body>)
    ensures OutboundRows(e, known, own, fleet, siblingBody).Ok? <==> e.recipient.OfPerson?
    ensures e.recipient.OfPerson? ==>
              var rows, siblings := OutboundRows(e, known, own, fleet, siblingBody).value, Siblings(fleet);
              var n := if |known| < 2 then 1 else |known|;
              && |rows| == n + (if siblingBody.Some? then |siblings| else 0)
              && (|known| < 2 ==> rows[0] == FanoutRow(e.msgId, e.expiry, e.hint, e.body))
              && (|known| >= 2 ==> forall i :: 0 <= i < n ==>
                    rows[i] == RowFor(e.msgId, e.recipient.person, known[i], e.expiry, e.body, e.timestamp))
              && (siblingBody.Some? ==> forall i :: 0 <= i < |siblings| ==>
                    rows[n + i] == RowFor(e.msgId, own, siblings[i], e.expiry, siblingBody.value, e.timestamp))
  {
    hide DeviceFanoutRows, Siblings, RowFor;
    if e.recipient.OfPerson? {
      DeviceRowsReach(e.msgId, e.recipient.person, known, e.expiry, e.body, e.timestamp);
      if siblingBody.Some? {
        DeviceRowsReach(e.msgId, own, Siblings(fleet), e.expiry, siblingBody.value, e.timestamp);
      }
    }
  }

  // ---- Judging fetched rows ----

  datatype FleetHint = OwnDevice | PersonShared | Sibling | Foreign
  datatype FleetHints = FleetHints(own: set<Hint>, personShared: set<Hint>, sibling: set<Hint>)

  /** The hints an id is polled under: today back through the carry window. */
  function HintsOver(id: RoutingId, now: int): set<Hint> {
    set k | 0 <= k <= CARRY_HINT_DAY_WINDOW_DAYS :: RecipientHint(id, now - k * MS_PER_DAY)
  }

  function OwnFleetHints(person: Person, fleet: Fleet, now: int): FleetHints {
    var own := HintsOver(Namespace(person, fleet.own), now);
    if |fleet.devices| < 2 then FleetHints(own + HintsOver(OfPerson(person), now), {}, {})
    else
      FleetHints(own, HintsOver(OfPerson(person), now),
                 set d, h | d in fleet.devices && Some(d) != fleet.own && h in HintsOver(OfDevice(person, d), now) :: h)
  }

  function Classify(hints: FleetHints, h: Hint): FleetHint {
    if h in hints.own then OwnDevice
    else if h in hints.sibling then Sibling
    else if h in hints.personShared then PersonShared
    else Foreign
  }

  datatype Disposition = Consumed | Carried | Expired | Seen | Failed | Rejected

  datatype Item = Item(relayId: nat, msgId: MsgId, disposition: Disposition, hint: Hint)

  /** The durable record behind `message_origin_by_msg_id`. */
  datatype Origin = Origin(chat: RoutingId, sender: Person)

  /** A device's durable evidence of what it consumed: stored messages, and the
      hidden kinds with the time their record lapses. */
  datatype Evidence = Evidence(origins: map<MsgId, Origin>, hidden: map<MsgId, int>)

  /** What one poll pass judges with. */
  datatype View = View(person: Person, fleet: Fleet, groups: set<GroupId>, evidence: Evidence, now: int)

  predicate OneToOneFromOther(o: Origin, own: Person) {
    o.sender != own && o.chat == OfPerson(o.sender)
  }

  /** `core_consumed_seen_is_ackable_with_hidden`. */
  predicate SeenAckable(origin: Option<Origin>, own: Person, recordedHidden: bool, hintIsOwn: bool) {
    if origin.Some? then OneToOneFromOther(origin.value, own) else recordedHidden && hintIsOwn
  }

  function LegacyGroupHints(groups: set<GroupId>, now: int): set<Hint> {
    set g, h | g in groups && h in HintsOver(OfGroup(g), now) :: h
  }

  predicate Acks(v: View, item: Item) {
    var kind := Classify(OwnFleetHints(v.person, v.fleet, v.now), item.hint);
    var origin := if item.msgId in v.evidence.origins then Some(v.evidence.origins[item.msgId]) else None;
    var hidden := item.msgId in v.evidence.hidden && v.evidence.hidden[item.msgId] > v.now;
    && item.hint !in LegacyGroupHints(v.groups, v.now)
    && kind != PersonShared && kind != Sibling
    && (item.disposition == Consumed
        || (item.disposition == Seen && SeenAckable(origin, v.person, hidden, kind == OwnDevice)))
  }

  function AckPlan(v: View, items: seq<Item>): seq<nat> {
    if items == [] then []
    else
      var n := |items| - 1;
      AckPlan(v, items[..n]) + if Acks(v, items[n]) then [items[n].relayId] else []
  }

  /** `core_relay_ack_ids_with_consumed`. */
  method PlanAcks(v: View, items: seq<Item>) returns (acked: seq<nat>)
    ensures acked == AckPlan(v, items)
  {
    var groupHints := LegacyGroupHints(v.groups, v.now);
    var fleetHints := OwnFleetHints(v.person, v.fleet, v.now);
    acked := [];
    for i := 0 to |items|
      invariant acked == AckPlan(v, items[..i])
    {
      var item := items[i];
      assert items[..i + 1][..i] == items[..i];
      if item.hint in groupHints { continue; }
      var kind := Classify(fleetHints, item.hint);
      if kind == PersonShared || kind == Sibling { continue; }
      if item.disposition == Consumed {
        acked := acked + [item.relayId];
        continue;
      }
      if item.disposition == Seen {
        var origin := if item.msgId in v.evidence.origins then Some(v.evidence.origins[item.msgId]) else None;
        var recordedHidden, hintIsOwn := false, false;
        if origin.None? {
          recordedHidden := item.msgId in v.evidence.hidden && v.evidence.hidden[item.msgId] > v.now;
          hintIsOwn := kind == OwnDevice;
        }
        if SeenAckable(origin, v.person, recordedHidden, hintIsOwn) {
          acked := acked + [item.relayId];
        }
      }
    }
    assert items[..|items|] == items;
  }

  lemma {:induction false} PlannedIds(v: View, items: seq<Item>, id: nat)
    ensures id in AckPlan(v, items)
       <==> exists i :: 0 <= i < |items| && items[i].relayId == id && Acks(v, items[i])
  {
    if items == [] {
    } else {
      var n := |items| - 1;
      PlannedIds(v, items[..n], id);
      if id in AckPlan(v, items[..n]) {
        var i :| 0 <= i < n && items[..n][i].relayId == id && Acks(v, items[..n][i]);
        assert items[i] == items[..n][i];
      }
    }
  }

  // ---- The window ----

  /** Today and the eight days before, in days of 86,400 seconds. */
  predicate InWindow(day: int, now: int) {
    now / 86_400_000 - 8 <= day <= now / 86_400_000
  }

  lemma HintsOverDays(id: RoutingId, now: int, h: Hint)
    ensures h in HintsOver(id, now) <==> h.id == id && InWindow(h.day, now)
  {
    forall k: int ensures Day(now - k * MS_PER_DAY) == Day(now) - k {
      DayShift(now, k);
    }
    if h.id == id && InWindow(h.day, now) {
      var k := Day(now) - h.day;
      assert h == RecipientHint(id, now - k * MS_PER_DAY);
    }
  }

  lemma DayShift(now: int, k: int)
    ensures Day(now - k * MS_PER_DAY) == Day(now) - k
  {
    assert now - k * MS_PER_DAY == (Day(now) - k) * MS_PER_DAY + now % MS_PER_DAY;
  }

  /** The window covers every row of at most the authored lifetime that is neither
      expired nor from the future, with a day to spare. */
  lemma WindowCovers(timestamp: int, expiry: int, now: int)
    requires expiry <= timestamp + 7 * 86_400_000
    requires now < expiry && Day(timestamp) <= Day(now)
    ensures InWindow(Day(timestamp), now) && InWindow(Day(timestamp), now + MS_PER_DAY)
  {
    DayShift(now, -1);
  }

  /** What a hint is classified as, by whom it addresses and the window alone. */
  lemma Classified(person: Person, fleet: Fleet, now: int, h: Hint)
    ensures Classify(OwnFleetHints(person, fleet, now), h)
         == if !InWindow(h.day, now) then Foreign
            else if h.id == Namespace(person, fleet.own) then OwnDevice
            else if h.id == OfPerson(person) then if |fleet.devices| < 2 then OwnDevice else PersonShared
            else if |fleet.devices| >= 2 && h.id.OfDevice? && h.id.person == person && h.id.device in fleet.devices
              then Sibling
            else Foreign
  {
    HintsOverDays(Namespace(person, fleet.own), now, h);
    HintsOverDays(OfPerson(person), now, h);
    forall d ensures h in HintsOver(OfDevice(person, d), now) <==> h.id == OfDevice(person, d) && InWindow(h.day, now) {
      HintsOverDays(OfDevice(person, d), now, h);
    }
  }

  lemma GroupHinted(groups: set<GroupId>, now: int, h: Hint)
    ensures h in LegacyGroupHints(groups, now) <==> h.id.OfGroup? && h.id.group in groups && InWindow(h.day, now)
  {
    forall g ensures h in HintsOver(OfGroup(g), now) <==> h.id == OfGroup(g) && InWindow(h.day, now) {
      HintsOverDays(OfGroup(g), now, h);
    }
  }

  /** The hints a phone counts as its own. */
  predicate OwnHint(v: View, h: Hint) {
    h.id == OfPerson(v.person) || (v.fleet.own.Some? && h.id == OfDevice(v.person, v.fleet.own.value))
  }

  /** A row others need: a group's shared one, the person's while there is a second
      device, or one of a device listed beside this one. */
  predicate Withheld(v: View, h: Hint) {
    match h.id
    case OfGroup(g) => g in v.groups
    case OfPerson(p) => p == v.person && |v.fleet.devices| >= 2
    case OfDevice(p, d) => p == v.person && d in v.fleet.devices && v.fleet.own != Some(d)
  }

  /** What is acked, for every view: nothing withheld inside the window; else what was
      consumed, and what was seen before if it is stored as another person's one-to-one
      message, or if nothing is stored, is recorded as a hidden kind not yet lapsed, and
      came under an own hint inside the window. */
  lemma AcksExactly(v: View, item: Item)
    requires ValidFleet(v.fleet)
    ensures Acks(v, item) <==>
      && !(InWindow(item.hint.day, v.now) && Withheld(v, item.hint))
      && (|| item.disposition == Consumed
          || (item.disposition == Seen &&
              if item.msgId in v.evidence.origins then
                var o := v.evidence.origins[item.msgId];
                o.sender != v.person && o.chat == OfPerson(o.sender)
              else
                && item.msgId in v.evidence.hidden && v.now < v.evidence.hidden[item.msgId]
                && InWindow(item.hint.day, v.now) && OwnHint(v, item.hint)))
  {
    Classified(v.person, v.fleet, v.now, item.hint);
    GroupHinted(v.groups, v.now, item.hint);
    if v.fleet.own.Some? && |v.fleet.devices| < 2 { OnlyDevice(v.fleet); }
    hide OwnFleetHints, LegacyGroupHints, Classify, ValidFleet;
  }

  /** An install that never linked plans exactly the acks the single-device rule
      did: group rows withheld, consumed rows acked, and seen rows on the evidence
      of a 1:1 message or of a hidden kind under the person's own hint. */
  lemma UnlinkedPlansTodaysAcks(v: View, item: Item)
    requires v.fleet == Fleet(None, [])
    ensures Acks(v, item) <==>
      && item.hint !in LegacyGroupHints(v.groups, v.now)
      && (|| item.disposition == Consumed
          || (item.disposition == Seen &&
              if item.msgId in v.evidence.origins then OneToOneFromOther(v.evidence.origins[item.msgId], v.person)
              else item.msgId in v.evidence.hidden && v.evidence.hidden[item.msgId] > v.now
                   && item.hint in HintsOver(OfPerson(v.person), v.now)))
  {
    Classified(v.person, v.fleet, v.now, item.hint);
    HintsOverDays(OfPerson(v.person), v.now, item.hint);
  }

  /** When a consumed row that others still need is deleted all the same. The
      shared row of a fleet, and a group's shared row, exactly when its day lies
      outside the window, as on a clock behind it. Another device's row also when
      this fleet does not list that device. */
  lemma OthersRowAckedExactly(v: View, item: Item)
    requires ValidFleet(v.fleet) && item.disposition == Consumed
    ensures item.hint.id == OfPerson(v.person) && |v.fleet.devices| >= 2 ==>
              (Acks(v, item) <==> !InWindow(item.hint.day, v.now))
    ensures item.hint.id.OfGroup? && item.hint.id.group in v.groups ==>
              (Acks(v, item) <==> !InWindow(item.hint.day, v.now))
    ensures item.hint.id.OfDevice? && item.hint.id.person == v.person && Some(item.hint.id.device) != v.fleet.own ==>
              (Acks(v, item) <==> item.hint.id.device !in v.fleet.devices || !InWindow(item.hint.day, v.now))
  {
    Classified(v.person, v.fleet, v.now, item.hint);
    GroupHinted(v.groups, v.now, item.hint);
    if v.fleet.own.Some? && |v.fleet.devices| < 2 { OnlyDevice(v.fleet); }
  }

  lemma OnlyDevice(f: Fleet)
    requires ValidFleet(f) && f.own.Some? && |f.devices| < 2
    ensures forall d :: d in f.devices <==> Some(d) == f.own
  {
    var i :| 0 <= i < |f.devices| && f.devices[i] == f.own.value;
    assert f.devices == [f.own.value];
  }

  /** The shared row of a fleet, on a clock one day behind it. */
  lemma ClockBehindAcksSharedRow()
    ensures var v := View(1, Fleet(Some(10), [10, 11]), {}, Evidence(map[], map[]), 5 * MS_PER_DAY);
            ValidFleet(v.fleet) && Acks(v, Item(0, Original(0), Consumed, RecipientHint(OfPerson(1), 6 * MS_PER_DAY)))
  {
    var v := View(1, Fleet(Some(10), [10, 11]), {}, Evidence(map[], map[]), 5 * MS_PER_DAY);
    OthersRowAckedExactly(v, Item(0, Original(0), Consumed, RecipientHint(OfPerson(1), 6 * MS_PER_DAY)));
  }

  /** A row for device 12 of a person whose fleet is listed as 10 and 11: either
      phone deletes it, and neither is the device it is addressed to. */
  lemma UnlistedDeviceRowAcked(own: DeviceId, now: int)
    requires own == 10 || own == 11
    ensures var v := View(1, Fleet(Some(own), [10, 11]), {}, Evidence(map[], map[]), now);
            ValidFleet(v.fleet) && Acks(v, Item(0, Original(0), Consumed, RecipientHint(OfDevice(1, 12), now)))
  {
    var v := View(1, Fleet(Some(own), [10, 11]), {}, Evidence(map[], map[]), now);
    OthersRowAckedExactly(v, Item(0, Original(0), Consumed, RecipientHint(OfDevice(1, 12), now)));
  }
}
