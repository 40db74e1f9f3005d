/** The mailbox as a protocol: any number of phones are installed, link and unlink
    fleets, join and leave groups, post, learn, poll and delete in any
    interleaving, each on its own view (core/src/engine.rs:1226-1411,
    core/src/recipient_hints.rs:325-382). */
module RelayProtocol {
  import opened Bytes
  import opened RelayMailbox

  // ---- Where rows come from ----

  datatype Source =
    | OneToOne(e: Envelope, routedAt: int, known: seq<DeviceId>,
               own: Person, fleet: Fleet, siblingBody: Option<Body>)
    | ToMembers(original: MsgId, members: seq<Person>, group: GroupId, expiry: int, timestamp: int)
    | ToGroup(original: MsgId, group: GroupId, expiry: int, timestamp: int) // the legacy shared row

  function Rows(src: Source): seq<FanoutRow> {
    match src
    case OneToOne(e, _, known, own, fleet, siblingBody) =>
      var rows := OutboundRows(e, known, own, fleet, siblingBody);
      if rows.Ok? then rows.value else []
    case ToMembers(original, members, group, expiry, timestamp) =>
      GroupFanoutRows(original, members, expiry, GroupSealed(group), timestamp)
    case ToGroup(original, group, expiry, timestamp) =>
      [FanoutRow(original, expiry, RecipientHint(OfGroup(group), timestamp), GroupSealed(group))]
  }

  /** An envelope is sealed to whom it addresses, its stored hint is that of the day
      it was routed, and no lifetime exceeds the authored one. What the sender
      knows of the recipient's devices may be arbitrarily stale. */
  predicate WellAuthored(src: Source) {
    match src
    case OneToOne(e, routedAt, _, own, _, siblingBody) =>
      && (e.recipient.OfPerson? ==> e.body == Pairwise(e.recipient.person))
      && e.hint == RecipientHint(e.recipient, routedAt)
      && e.expiry <= routedAt + DEFAULT_EXPIRY_MS && e.expiry <= e.timestamp + DEFAULT_EXPIRY_MS
      && (siblingBody.Some? ==> siblingBody.value == Pairwise(own))
    case ToMembers(_, _, _, expiry, timestamp) => expiry <= timestamp + DEFAULT_EXPIRY_MS
    case ToGroup(_, _, expiry, timestamp) => expiry <= timestamp + DEFAULT_EXPIRY_MS
  }

  /** A row's addressing agrees with its seal, and its day with its expiry. */
  ghost predicate WellAddressed(r: FanoutRow) {
    && (match r.hint.id
        case OfDevice(p, _) => r.body == Pairwise(p)
        case OfPerson(p) => r.body == Pairwise(p) || r.body.GroupSealed?
        case OfGroup(g) => r.body == GroupSealed(g))
    && exists ts :: Day(ts) == r.hint.day && r.expiry <= ts + DEFAULT_EXPIRY_MS
  }

  lemma RowsWellAddressed(src: Source, i: nat)
    requires WellAuthored(src) && i < |Rows(src)|
    ensures WellAddressed(Rows(src)[i])
  {
    var r := Rows(src)[i];
    var ts := if src.OneToOne? then if r.hint == src.e.hint && Day(src.e.timestamp) != r.hint.day
                                    then src.routedAt else src.e.timestamp
              else src.timestamp;
    if src.OneToOne? {
      assert r.hint.day == Day(src.routedAt) || r.hint.day == Day(src.e.timestamp);
    }
    assert Day(ts) == r.hint.day && r.expiry <= ts + DEFAULT_EXPIRY_MS;
  }

  // ---- The state machine ----

  type PhoneId = nat

  /** One installation and everything it goes by: the fleet and the groups as it
      holds them, which need not be what others hold, and what it consumed. */
  datatype Phone = Phone(person: Person, fleet: Fleet, groups: set<GroupId>, evidence: Evidence)

  datatype State = State(
    rows: map<nat, FanoutRow>,       // the mailbox, by relay id
    nextId: nat,
    bodies: map<MsgId, Body>,        // what each message id was ever sealed around
    phones: map<PhoneId, Phone>)

  datatype Action =
    | Install(x: PhoneId, person: Person)
    | Link(x: PhoneId, fleet: Fleet)            // any change of the fleet held, both ways
    | Regroup(x: PhoneId, groups: set<GroupId>) // groups imported or left
    | Learn(x: PhoneId, msgId: MsgId, body: Body, origin: Option<Origin>, hiddenUntil: Option<int>)
    | Post(src: Source, i: nat)
    | Poll(x: PhoneId, now: int, items: seq<Item>)
    | Prune(serverNow: int)

  function ViewOf(ph: Phone, now: int): View {
    View(ph.person, ph.fleet, ph.groups, ph.evidence, now)
  }

  /** Whether a phone can report a row consumed: it holds the person's key, or the
      key of a group it has and the row came under its person's or the group's hint. */
  predicate MayOpen(ph: Phone, r: FanoutRow) {
    match r.body
    case Pairwise(p) => p == ph.person
    case GroupSealed(g) => g in ph.groups && (r.hint.id == OfGroup(g) || r.hint.id == OfPerson(ph.person))
  }

  /** A poll pass reports rows it fetched; one past its expiry is reported expired. */
  predicate Judged(ph: Phone, now: int, r: FanoutRow, item: Item) {
    && item.msgId == r.msgId && item.hint == r.hint
    && (now >= r.expiry ==> item.disposition == Expired)
    && (item.disposition == Consumed ==> MayOpen(ph, r))
  }

  /** One message id, one body. */
  predicate Names(s: State, m: MsgId, body: Body) {
    m in s.bodies ==> s.bodies[m] == body
  }

  predicate Enabled(s: State, a: Action) {
    match a
    case Install(_, _) => true
    case Link(x, fleet) => x in s.phones && ValidFleet(fleet)
    case Regroup(x, _) => x in s.phones
    case Learn(x, m, body, origin, hiddenUntil) =>
      && x in s.phones && Names(s, m, body)
      && (origin.Some? && OneToOneFromOther(origin.value, s.phones[x].person) ==> body == Pairwise(s.phones[x].person))
      && (hiddenUntil.Some? ==> body == Pairwise(s.phones[x].person))
    case Post(src, i) => WellAuthored(src) && i < |Rows(src)| && Names(s, Rows(src)[i].msgId, Rows(src)[i].body)
    case Poll(x, now, items) =>
      && x in s.phones
      && forall i :: 0 <= i < |items| ==>
           items[i].relayId in s.rows && Judged(s.phones[x], now, s.rows[items[i].relayId], items[i])
    case Prune(_) => true
  }

  predicate Held(s: State, r: FanoutRow) {
    exists id :: id in s.rows && s.rows[id].msgId == r.msgId && s.rows[id].hint == r.hint
  }

  function Learned(ev: Evidence, m: MsgId, origin: Option<Origin>, hiddenUntil: Option<int>): Evidence {
    Evidence(if origin.Some? then ev.origins[m := origin.value] else ev.origins,
             if hiddenUntil.Some? then ev.hidden[m := hiddenUntil.value] else ev.hidden)
  }

  /** What an action does; one that is not enabled does nothing. */
  function Next(s: State, a: Action): State {
    if !Enabled(s, a) then s
    else match a
    case Install(x, person) =>
      s.(phones := s.phones[x := Phone(person, Fleet(None, []), {}, Evidence(map[], map[]))])
    case Link(x, fleet) => s.(phones := s.phones[x := s.phones[x].(fleet := fleet)])
    case Regroup(x, groups) => s.(phones := s.phones[x := s.phones[x].(groups := groups)])
    case Learn(x, m, body, origin, hiddenUntil) =>
      var ph := s.phones[x];
      s.(bodies := s.bodies[m := body],
         phones := s.phones[x := ph.(evidence := Learned(ph.evidence, m, origin, hiddenUntil))])
    case Post(src, i) =>
      var r := Rows(src)[i];
      var t := s.(bodies := s.bodies[r.msgId := r.body]);
      if Held(s, r) then t else t.(rows := s.rows[s.nextId := r], nextId := s.nextId + 1)
    case Poll(x, now, items) =>
      var plan := AckPlan(ViewOf(s.phones[x], now), items);
      s.(rows := map id | id in s.rows && id !in plan :: s.rows[id])
    case Prune(serverNow) =>
      s.(rows := map id | id in s.rows && s.rows[id].expiry > serverNow :: s.rows[id])
  }

  const START := State(map[], 0, map[], map[])

  // ---- What every action keeps ----

  /** A message a phone remembers as someone's one-to-one, or as consumed and
      hidden, was sealed to its person. */
  ghost predicate EvidenceFits(ev: Evidence, bodies: map<MsgId, Body>, p: Person) {
    && (forall m :: m in ev.origins && OneToOneFromOther(ev.origins[m], p)
          ==> m in bodies && bodies[m] == Pairwise(p))
    && (forall m :: m in ev.hidden ==> m in bodies && bodies[m] == Pairwise(p))
  }

  ghost predicate PhoneSound(s: State, x: PhoneId)
    requires x in s.phones
  {
    ValidFleet(s.phones[x].fleet) && EvidenceFits(s.phones[x].evidence, s.bodies, s.phones[x].person)
  }

  ghost predicate RowSound(s: State, id: nat)
    requires id in s.rows
  {
    && id < s.nextId && WellAddressed(s.rows[id])
    && s.rows[id].msgId in s.bodies && s.bodies[s.rows[id].msgId] == s.rows[id].body
  }

  ghost predicate Inv(s: State) {
    && (forall id :: id in s.rows ==> RowSound(s, id))
    && (forall x :: x in s.phones ==> PhoneSound(s, x))
  }

  lemma InvKept(s: State, a: Action)
    requires Inv(s)
    ensures Inv(Next(s, a))
  {
    hide PhoneSound, RowSound;
    var t := Next(s, a);
    forall id | id in t.rows ensures RowSound(t, id) { RowStaysSound(s, a, id); }
    forall x | x in t.phones ensures PhoneSound(t, x) { PhoneStaysSound(s, a, x); }
  }

  lemma RowStaysSound(s: State, a: Action, id: nat)
    requires Inv(s) && id in Next(s, a).rows
    ensures RowSound(Next(s, a), id)
  {
    hide WellAddressed, PhoneSound, Rows, Held;
    if a.Post? && Enabled(s, a) { RowsWellAddressed(a.src, a.i); }
    assert id in s.rows ==> RowSound(s, id);
  }

  lemma PhoneStaysSound(s: State, a: Action, x: PhoneId)
    requires Inv(s) && x in Next(s, a).phones
    ensures PhoneSound(Next(s, a), x)
  {
    hide RowSound, Rows, Held, EvidenceFits, Names, Learned;
    assert x in s.phones ==> PhoneSound(s, x);
    if Enabled(s, a) {
      match a
      case Install(_, person) => NoEvidenceFits(s.bodies, person);
      case Learn(y, m, body, origin, hiddenUntil) =>
        var ph := s.phones[x];
        FitsMoreBodies(ph.evidence, s, m, body, ph.person);
        if y == x { FitsLearned(ph.evidence, s.bodies[m := body], m, origin, hiddenUntil, ph.person); }
      case Post(src, i) =>
        FitsMoreBodies(s.phones[x].evidence, s, Rows(src)[i].msgId, Rows(src)[i].body, s.phones[x].person);
      case Link(_, _) =>
      case Regroup(_, _) =>
      case Poll(_, _, _) =>
      case Prune(_) =>
    }
  }

  lemma NoEvidenceFits(bodies: map<MsgId, Body>, p: Person)
    ensures EvidenceFits(Evidence(map[], map[]), bodies, p)
  {
  }

  lemma FitsMoreBodies(ev: Evidence, s: State, m: MsgId, body: Body, p: Person)
    requires EvidenceFits(ev, s.bodies, p) && Names(s, m, body)
    ensures EvidenceFits(ev, s.bodies[m := body], p)
  {
  }

  lemma FitsLearned(
      ev: Evidence, bodies: map<MsgId, Body>, m: MsgId, origin: Option<Origin>, hiddenUntil: Option<int>, p: Person)
    requires EvidenceFits(ev, bodies, p) && m in bodies
    requires origin.Some? && OneToOneFromOther(origin.value, p) ==> bodies[m] == Pairwise(p)
    requires hiddenUntil.Some? ==> bodies[m] == Pairwise(p)
    ensures EvidenceFits(Learned(ev, m, origin, hiddenUntil), bodies, p)
  {
  }

  // ---- Who may delete a row ----

  /** The phone is the row's one true consumer as far as it knows: the device the
      row is addressed to, or the only device of the person. */
  predicate Addressed(ph: Phone, r: FanoutRow) {
    match r.hint.id
    case OfDevice(p, d) => p == ph.person && ph.fleet.own == Some(d)
    case OfPerson(p) => p == ph.person && |ph.fleet.devices| < 2
    case OfGroup(_) => false
  }

  /** The row is for a device of the person that this phone's fleet does not list. */
  predicate Unlisted(ph: Phone, r: FanoutRow) {
    r.hint.id.OfDevice? && r.hint.id.person == ph.person && r.hint.id.device !in ph.fleet.devices
  }

  /** The row is of a later day than the polling clock, and opens here. */
  predicate FromAhead(ph: Phone, now: int, r: FanoutRow) {
    Day(now) < r.hint.day && MayOpen(ph, r)
  }

  predicate MayDelete(ph: Phone, now: int, r: FanoutRow) {
    Addressed(ph, r) || Unlisted(ph, r) || FromAhead(ph, now, r)
  }

  /** Whatever route led to the ack, the row opens on this phone. */
  lemma AckedOpensHere(ph: Phone, bodies: map<MsgId, Body>, now: int, r: FanoutRow, item: Item)
    requires EvidenceFits(ph.evidence, bodies, ph.person) && Judged(ph, now, r, item)
    requires r.msgId in bodies && bodies[r.msgId] == r.body
    requires Acks(ViewOf(ph, now), item)
    ensures MayOpen(ph, r) && now < r.expiry
  {
  }

  /** A live row's class, once its day is not ahead of the clock. */
  lemma LiveRowClassified(ph: Phone, now: int, r: FanoutRow)
    requires ValidFleet(ph.fleet) && WellAddressed(r) && MayOpen(ph, r) && now < r.expiry && r.hint.day <= Day(now)
    ensures var kind := Classify(OwnFleetHints(ph.person, ph.fleet, now), r.hint);
            kind != PersonShared && kind != Sibling && r.hint !in LegacyGroupHints(ph.groups, now)
            <==> Addressed(ph, r) || Unlisted(ph, r)
  {
    var ts :| Day(ts) == r.hint.day && r.expiry <= ts + DEFAULT_EXPIRY_MS;
    WindowCovers(ts, r.expiry, now);
    Classified(ph.person, ph.fleet, now, r.hint);
    GroupHinted(ph.groups, now, r.hint);
    if ph.fleet.own.Some? && |ph.fleet.devices| < 2 { OnlyDevice(ph.fleet); }
    hide OwnFleetHints, LegacyGroupHints, Classify, ValidFleet;
  }

  /** A row of a later day is of no class and under no group's hint. */
  lemma AheadIsForeign(ph: Phone, now: int, r: FanoutRow)
    requires Day(now) < r.hint.day
    ensures Classify(OwnFleetHints(ph.person, ph.fleet, now), r.hint) == Foreign
    ensures r.hint !in LegacyGroupHints(ph.groups, now)
  {
    Classified(ph.person, ph.fleet, now, r.hint);
    GroupHinted(ph.groups, now, r.hint);
  }

  /** A phone acks a row only if it may delete it, and a consumed row if and only if. */
  lemma AckedExactly(ph: Phone, bodies: map<MsgId, Body>, now: int, r: FanoutRow, item: Item)
    requires ValidFleet(ph.fleet) && EvidenceFits(ph.evidence, bodies, ph.person)
    requires WellAddressed(r) && r.msgId in bodies && bodies[r.msgId] == r.body && Judged(ph, now, r, item)
    ensures Acks(ViewOf(ph, now), item) ==> MayDelete(ph, now, r)
    ensures item.disposition == Consumed ==> (Acks(ViewOf(ph, now), item) <==> MayDelete(ph, now, r))
  {
    hide Classify, OwnFleetHints, LegacyGroupHints, EvidenceFits, WellAddressed, ValidFleet, Addressed, Unlisted;
    if Acks(ViewOf(ph, now), item) { AckedOpensHere(ph, bodies, now, r, item); }
    if Day(now) < r.hint.day {
      AheadIsForeign(ph, now, r);
    } else if MayOpen(ph, r) && now < r.expiry {
      LiveRowClassified(ph, now, r);
    }
  }

  /** An action that removes a row, and what entitles it to. */
  predicate Removes(s: State, a: Action, r: FanoutRow) {
    match a
    case Prune(serverNow) => serverNow >= r.expiry
    case Poll(x, now, _) => x in s.phones && MayDelete(s.phones[x], now, r)
    case _ => false
  }

  /** One step: a row leaves only so, and rows that stay are unchanged. */
  lemma RowLeaves(s: State, a: Action, id: nat)
    requires Inv(s) && id in s.rows
    ensures id in Next(s, a).rows ==> Next(s, a).rows[id] == s.rows[id]
    ensures id !in Next(s, a).rows ==> Removes(s, a, s.rows[id])
  {
    assert RowSound(s, id);
    if a.Poll? && Enabled(s, a) && id !in Next(s, a).rows {
      var ph := s.phones[a.x];
      assert PhoneSound(s, a.x);
      PlannedIds(ViewOf(ph, a.now), a.items, id);
      var i :| 0 <= i < |a.items| && a.items[i].relayId == id && Acks(ViewOf(ph, a.now), a.items[i]);
      hide WellAddressed, EvidenceFits, ValidFleet, MayDelete, Acks;
      AckedExactly(ph, s.bodies, a.now, s.rows[id], a.items[i]);
    }
  }

  /** And nothing weaker would do: whatever a phone may delete, it deletes in the
      poll that consumes it. */
  lemma PollDeletesExactly(s: State, x: PhoneId, now: int, id: nat)
    requires Inv(s) && x in s.phones && id in s.rows && MayOpen(s.phones[x], s.rows[id]) && now < s.rows[id].expiry
    ensures var r := s.rows[id];
            var poll := Poll(x, now, [Item(id, r.msgId, Consumed, r.hint)]);
            Enabled(s, poll) && (id !in Next(s, poll).rows <==> MayDelete(s.phones[x], now, r))
  {
    assert RowSound(s, id) && PhoneSound(s, x);
    hide WellAddressed, EvidenceFits, ValidFleet, MayDelete, Acks, MayOpen;
    var ph, r := s.phones[x], s.rows[id];
    var item := Item(id, r.msgId, Consumed, r.hint);
    AckedExactly(ph, s.bodies, now, r, item);
    PlannedIds(ViewOf(ph, now), [item], id);
    assert [item][0] == item;
  }

  lemma IdsNotReused(s: State, a: Action, id: nat)
    requires id < s.nextId
    ensures id < Next(s, a).nextId
    ensures id !in s.rows ==> id !in Next(s, a).rows
  {
  }

  // ---- Runs ----

  function After(acts: seq<Action>): State {
    if acts == [] then START else Next(After(acts[..|acts| - 1]), acts[|acts| - 1])
  }

  lemma {:induction false} InvAlways(acts: seq<Action>)
    ensures Inv(After(acts))
  {
    if acts == [] {
    } else {
      var n := |acts| - 1;
      InvAlways(acts[..n]);
      InvKept(After(acts[..n]), acts[n]);
    }
  }

  /** The k-th action is the one that took the row out, and was entitled to. */
  ghost predicate RemovedAt(acts: seq<Action>, k: nat, id: nat, r: FanoutRow)
    requires k < |acts|
  {
    && id in After(acts[..k]).rows && After(acts[..k]).rows[id] == r
    && id !in After(acts[..k + 1]).rows
    && Removes(After(acts[..k]), acts[k], r)
  }

  /** In every run, whatever phones link, regroup, post and poll in it, a row present
      at one moment and gone at a later one was taken out in between by a prune after
      its expiry, or by a poll of a phone entitled to by its own view at that poll. */
  lemma {:induction false} OnlyEntitledDelete(acts: seq<Action>, i: nat, id: nat, r: FanoutRow)
    requires i <= |acts| && id in After(acts[..i]).rows && After(acts[..i]).rows[id] == r
    ensures id < After(acts).nextId
    ensures id in After(acts).rows ==> After(acts).rows[id] == r
    ensures id !in After(acts).rows ==> exists k :: i <= k < |acts| && RemovedAt(acts, k, id, r)
    decreases |acts|
  {
    hide Next, Removes, Inv;
    if i == |acts| {
      assert acts[..i] == acts;
      InvAlways(acts);
      RowIdsBelow(After(acts), id);
    } else {
      var n := |acts| - 1;
      assert acts[..n][..i] == acts[..i] && acts[..n + 1] == acts;
      OnlyEntitledDelete(acts[..n], i, id, r);
      var s := After(acts[..n]);
      IdsNotReused(s, acts[n], id);
      if id in s.rows {
        InvAlways(acts[..n]);
        RowLeaves(s, acts[n], id);
        assert id !in After(acts).rows ==> RemovedAt(acts, n, id, r);
      } else {
        var k :| i <= k < n && RemovedAt(acts[..n], k, id, r);
        RemovedInPrefix(acts, n, k, id, r);
      }
    }
  }

  lemma RemovedInPrefix(acts: seq<Action>, n: nat, k: nat, id: nat, r: FanoutRow)
    requires k < n <= |acts| && RemovedAt(acts[..n], k, id, r)
    ensures RemovedAt(acts, k, id, r)
  {
    hide After, Removes;
    assert acts[..n][..k] == acts[..k] && acts[..n][..k + 1] == acts[..k + 1] && acts[..n][k] == acts[k];
  }

  lemma RowIdsBelow(s: State, id: nat)
    requires Inv(s) && id in s.rows
    ensures id < s.nextId
  {
    assert RowSound(s, id);
  }

  /** If the row is its person's, the phone knows whom it has to leave it for: the
      device it is addressed to, or a second device of the person. */
  predicate KnowsOthers(ph: Phone, r: FanoutRow) {
    match r.hint.id
    case OfDevice(p, d) => ph.person == p ==> d in ph.fleet.devices
    case OfPerson(p) => ph.person == p ==> |ph.fleet.devices| >= 2
    case OfGroup(_) => true
  }

  /** So does every phone that polls from moment `i` on, at the moment it polls; and
      where it can open the row, its clock has reached the row's day. */
  ghost predicate PolledInTheKnow(acts: seq<Action>, i: nat, r: FanoutRow) {
    forall k :: i <= k < |acts| && acts[k].Poll? && acts[k].x in After(acts[..k]).phones ==>
      InTheKnow(After(acts[..k]).phones[acts[k].x], acts[k].now, r)
  }

  predicate InTheKnow(ph: Phone, now: int, r: FanoutRow) {
    KnowsOthers(ph, r) && (MayOpen(ph, r) ==> r.hint.day <= Day(now))
  }

  /** A poll of the very device a row is addressed to. */
  predicate PollOf(s: State, a: Action, p: Person, d: DeviceId) {
    a.Poll? && a.x in s.phones && s.phones[a.x].person == p && s.phones[a.x].fleet.own == Some(d)
  }

  /** Of what entitles a deletion, only expiry and the address are then left. */
  lemma KnowingRemoves(s: State, a: Action, r: FanoutRow)
    requires Removes(s, a, r)
    requires a.Poll? && a.x in s.phones ==> InTheKnow(s.phones[a.x], a.now, r)
    ensures || (a.Prune? && a.serverNow >= r.expiry)
            || (r.hint.id.OfDevice? && PollOf(s, a, r.hint.id.person, r.hint.id.device))
  {
  }

  /** ACK-MD-2 and the group rule: a group's shared row, and the person row of a
      person each of whose polling phones knows of a second device, is taken out only
      by a prune after its expiry. */
  lemma SharedRowsOnlyExpire(acts: seq<Action>, i: nat, id: nat, r: FanoutRow)
    requires i <= |acts| && id in After(acts[..i]).rows && After(acts[..i]).rows[id] == r
    requires !r.hint.id.OfDevice?
    requires PolledInTheKnow(acts, i, r)
    ensures id in After(acts).rows
            || exists k :: i <= k < |acts| && RemovedAt(acts, k, id, r)
                           && acts[k].Prune? && acts[k].serverNow >= r.expiry
  {
    hide After, Removes;
    OnlyEntitledDelete(acts, i, id, r);
    if id !in After(acts).rows {
      var k :| i <= k < |acts| && RemovedAt(acts, k, id, r);
      KnowingRemoves(After(acts[..k]), acts[k], r);
    }
  }

  /** ACK-MD-1: while the phones of its person that poll list the device, a row in
      its namespace is taken out only by a prune after its expiry or by a poll of that
      device of that person. */
  lemma DeviceRowsOnlyByDevice(acts: seq<Action>, i: nat, id: nat, r: FanoutRow, p: Person, d: DeviceId)
    requires i <= |acts| && id in After(acts[..i]).rows && After(acts[..i]).rows[id] == r
    requires r.hint.id == OfDevice(p, d)
    requires PolledInTheKnow(acts, i, r)
    ensures id in After(acts).rows
            || exists k :: i <= k < |acts| && RemovedAt(acts, k, id, r)
                           && ((acts[k].Prune? && acts[k].serverNow >= r.expiry)
                               || PollOf(After(acts[..k]), acts[k], p, d))
  {
    hide After, Removes;
    OnlyEntitledDelete(acts, i, id, r);
    if id !in After(acts).rows {
      var k :| i <= k < |acts| && RemovedAt(acts, k, id, r);
      KnowingRemoves(After(acts[..k]), acts[k], r);
    }
  }

  // ---- Delivery ----

  /** All rows of a source, posted one after another from the k-th on. */
  function PostAll(s: State, src: Source, k: nat): State
    requires k <= |Rows(src)|
    decreases |Rows(src)| - k
  {
    if k == |Rows(src)| then s else PostAll(Next(s, Post(src, k)), src, k + 1)
  }

  /** No id of the source's rows was ever used for another body. */
  predicate IdsFree(s: State, src: Source) {
    forall i :: 0 <= i < |Rows(src)| ==> Names(s, Rows(src)[i].msgId, Rows(src)[i].body)
  }

  /** A row of this id, hint and body is in the mailbox. */
  predicate Waiting(s: State, r: FanoutRow) {
    exists id :: id in s.rows && s.rows[id].msgId == r.msgId && s.rows[id].hint == r.hint && s.rows[id].body == r.body
  }

  /** Rows of one source with one id carry one body. */
  ghost predicate OneBodyEach(src: Source) {
    forall i, j :: 0 <= i < j < |Rows(src)| && Rows(src)[i].msgId == Rows(src)[j].msgId ==>
      Rows(src)[i].body == Rows(src)[j].body
  }

  lemma PostPlaces(s: State, src: Source, k: nat)
    requires Inv(s) && WellAuthored(src) && k < |Rows(src)| && IdsFree(s, src) && OneBodyEach(src)
    ensures var t := Next(s, Post(src, k));
            && Waiting(t, Rows(src)[k]) && IdsFree(t, src)
            && forall r :: Waiting(s, r) ==> Waiting(t, r)
  {
    var r, t := Rows(src)[k], Next(s, Post(src, k));
    hide WellAuthored, Rows, PhoneSound, WellAddressed;
    assert Enabled(s, Post(src, k));
    if Held(s, r) {
      var id :| id in s.rows && s.rows[id].msgId == r.msgId && s.rows[id].hint == r.hint;
      assert RowSound(s, id);
      assert id in t.rows;
    } else {
      assert s.nextId in t.rows && t.rows[s.nextId] == r;
      forall id | id in s.rows ensures id in t.rows && t.rows[id] == s.rows[id] { assert RowSound(s, id); }
    }
    forall q | Waiting(s, q) ensures Waiting(t, q) {
      var id :| id in s.rows && s.rows[id].msgId == q.msgId && s.rows[id].hint == q.hint && s.rows[id].body == q.body;
      assert id in t.rows && t.rows[id] == s.rows[id] by { assert RowSound(s, id); }
    }
  }

  /** Once all are posted, every one of them waits. */
  lemma {:induction false} AllPlaced(s: State, src: Source, k: nat, i: nat)
    requires Inv(s) && WellAuthored(src) && IdsFree(s, src) && OneBodyEach(src) && k <= |Rows(src)| && i < |Rows(src)|
    requires i < k ==> Waiting(s, Rows(src)[i])
    ensures Inv(PostAll(s, src, k)) && Waiting(PostAll(s, src, k), Rows(src)[i])
    decreases |Rows(src)| - k
  {
    hide Inv, WellAuthored, Rows, Waiting, IdsFree, OneBodyEach, Next;
    if k == |Rows(src)| {
    } else {
      InvKept(s, Post(src, k));
      PostPlaces(s, src, k);
      AllPlaced(Next(s, Post(src, k)), src, k + 1, i);
    }
  }

  /** A phone finds the row: under a hint it polls, and it opens there. */
  ghost predicate Finds(ph: Phone, now: int, s: State, msgId: MsgId) {
    exists id :: id in s.rows && s.rows[id].msgId == msgId && MayOpen(ph, s.rows[id])
                 && (s.rows[id].hint in HintsOver(OfPerson(ph.person), now)
                     || s.rows[id].hint in HintsOver(Namespace(ph.person, ph.fleet.own), now))
  }

  /** A group message fanned out to its members: after the posts, every member's phone
      that has the group finds its own copy, on any day of the row's life. */
  lemma GroupMessageReaches(s: State, src: Source, i: nat, ph: Phone, now: int)
    requires Inv(s) && src.ToMembers? && WellAuthored(src) && IdsFree(s, src) && i < |src.members|
    requires ph.person == src.members[i] && src.group in ph.groups
    requires src.timestamp / 86_400_000 <= now / 86_400_000 && now < src.expiry
    ensures Finds(ph, now, PostAll(s, src, 0), ForMember(src.original, src.members[i]))
  {
    GroupRowsReach(src.original, src.members, src.expiry, GroupSealed(src.group), src.timestamp);
    WindowCovers(src.timestamp, src.expiry, now);
    var r, t := Rows(src)[i], PostAll(s, src, 0);
    HintsOverDays(OfPerson(ph.person), now, r.hint);
    assert OneBodyEach(src);
    hide Inv, WellAuthored, IdsFree, OneBodyEach, PostAll, HintsOver, InWindow;
    AllPlaced(s, src, 0, i);
    var id :| id in t.rows && t.rows[id].msgId == r.msgId && t.rows[id].hint == r.hint && t.rows[id].body == r.body;
    assert MayOpen(ph, t.rows[id]);
  }

  /** The sender's siblings are none of the recipient's devices. */
  predicate DevicesApart(src: Source)
    requires src.OneToOne?
  {
    src.siblingBody.Some? ==> forall d :: d in src.known ==> d !in Siblings(src.fleet)
  }

  lemma OneToOneBodies(src: Source)
    requires src.OneToOne? && src.e.recipient.OfPerson? && 2 <= |src.known| && DevicesApart(src)
    ensures OneBodyEach(src)
  {
    OutboundRowsReach(src.e, src.known, src.own, src.fleet, src.siblingBody);
    hide OutboundRows, Siblings;
    var n, siblings := |src.known|, Siblings(src.fleet);
    forall i, k | 0 <= i < n && 0 <= k < |siblings| && src.siblingBody.Some? ensures src.known[i] != siblings[k] {
      assert src.known[i] in src.known && siblings[k] in siblings;
    }
    forall i, j | 0 <= i < j < |Rows(src)|
      ensures Rows(src)[i].msgId == Rows(src)[j].msgId ==> Rows(src)[i].body == Rows(src)[j].body
    {
      assert j >= n ==> Rows(src)[j].msgId == ForDevice(src.e.msgId, siblings[j - n]);
    }
  }

  /** The phone of a device finds the row of a source that is addressed to it. */
  lemma DeviceFinds(s: State, src: Source, k: nat, ph: Phone, d: DeviceId, now: int)
    requires Inv(s) && WellAuthored(src) && IdsFree(s, src) && OneBodyEach(src) && k < |Rows(src)|
    requires Rows(src)[k].hint.id == OfDevice(ph.person, d) && Rows(src)[k].body == Pairwise(ph.person)
    requires ph.fleet.own == Some(d) && InWindow(Rows(src)[k].hint.day, now)
    ensures Finds(ph, now, PostAll(s, src, 0), Rows(src)[k].msgId)
  {
    var r, t := Rows(src)[k], PostAll(s, src, 0);
    HintsOverDays(Namespace(ph.person, ph.fleet.own), now, r.hint);
    hide Inv, WellAuthored, IdsFree, OneBodyEach, PostAll, HintsOver, InWindow, Rows;
    AllPlaced(s, src, 0, k);
    var id :| id in t.rows && t.rows[id].msgId == r.msgId && t.rows[id].hint == r.hint && t.rows[id].body == r.body;
    assert MayOpen(ph, t.rows[id]);
  }

  /** A one-to-one message to a person known to have several devices: after the posts,
      the phone of every known device, and of every sibling of the sender there is a
      body for, finds its own copy. */
  lemma DeviceMessageReaches(s: State, src: Source, ph: Phone, d: DeviceId, now: int)
    requires Inv(s) && src.OneToOne? && WellAuthored(src) && src.e.recipient.OfPerson? && 2 <= |src.known|
    requires IdsFree(s, src) && DevicesApart(src) && ph.fleet.own == Some(d)
    requires || (ph.person == src.e.recipient.person && d in src.known)
             || (ph.person == src.own && src.siblingBody.Some? && d in Siblings(src.fleet))
    requires src.e.timestamp / 86_400_000 <= now / 86_400_000 && now < src.e.expiry
    ensures Finds(ph, now, PostAll(s, src, 0), ForDevice(src.e.msgId, d))
  {
    OutboundRowsReach(src.e, src.known, src.own, src.fleet, src.siblingBody);
    WindowCovers(src.e.timestamp, src.e.expiry, now);
    OneToOneBodies(src);
    hide Inv, IdsFree, OneBodyEach, PostAll, HintsOver, InWindow, OutboundRows, Siblings, Finds;
    var n, siblings := |src.known|, Siblings(src.fleet);
    if ph.person == src.e.recipient.person && d in src.known {
      var i :| 0 <= i < n && src.known[i] == d;
      DeviceFinds(s, src, i, ph, d, now);
    } else {
      var i :| 0 <= i < |siblings| && siblings[i] == d;
      DeviceFinds(s, src, n + i, ph, d, now);
    }
  }

  // ---- A device its siblings do not list ----

  function SiblingPhone(): Phone {
    Phone(1, Fleet(Some(10), [10, 11]), {}, Evidence(map[], map[]))
  }

  /** A sender who knows of devices 10 and 12 posts the row of device 12. */
  function StalePost(): Action {
    Post(OneToOne(Envelope(Original(0), OfPerson(1), 0, 1, Hint(OfPerson(1), 0), Pairwise(1)),
                  0, [10, 12], 2, Fleet(None, []), None), 1)
  }

  function UnlistedRow(): FanoutRow {
    FanoutRow(ForDevice(Original(0), 12), 1, Hint(OfDevice(1, 12), 0), Pairwise(1))
  }

  function RunUpToPost(): seq<Action> {
    [Install(0, 1), Link(0, SiblingPhone().fleet), StalePost()]
  }

  lemma RunUpToPostGives()
    ensures After(RunUpToPost())
         == State(map[0 := UnlistedRow()], 1, map[UnlistedRow().msgId := Pairwise(1)], map[0 := SiblingPhone()])
  {
    var a, b := Install(0, 1), Link(0, SiblingPhone().fleet);
    var s1 := START.(phones := map[0 := Phone(1, Fleet(None, []), {}, Evidence(map[], map[]))]);
    var s2 := START.(phones := map[0 := SiblingPhone()]);
    assert [a, b, StalePost()][..2] == [a, b] && [a, b][..1] == [a] && [a][..0] == [];
    assert After([a]) == s1;
    assert Next(s1, b) == s2;
    assert Rows(StalePost().src)[1] == UnlistedRow();
  }

  /** Without the listing a sibling deletes it: the phone of device 10, which lists
      10 and 11, polls the row of device 12, which never polls. */
  lemma UnlistedDeviceLosesRow()
    ensures var acts := RunUpToPost() + [Poll(0, 0, [Item(0, UnlistedRow().msgId, Consumed, UnlistedRow().hint)])];
            && 0 in After(acts[..3]).rows && After(acts[..3]).rows[0].hint.id == OfDevice(1, 12)
            && 0 !in After(acts).rows
            && RemovedAt(acts, 3, 0, UnlistedRow())
            && !exists k :: 0 <= k < |acts| && PollOf(After(acts[..k]), acts[k], 1, 12)
  {
    var before, s := RunUpToPost(), After(RunUpToPost());
    RunUpToPostGives();
    InvAlways(before);
    hide Next, Inv, After, Enabled;
    PollDeletesExactly(s, 0, 0, 0);
    var poll := Poll(0, 0, [Item(0, UnlistedRow().msgId, Consumed, UnlistedRow().hint)]);
    var acts := before + [poll];
    assert acts[..3] == before && acts[..4] == acts;
    AfterSnoc(before, poll);
    assert forall k :: 0 <= k < 3 ==> !acts[k].Poll?;
  }

  lemma AfterSnoc(acts: seq<Action>, a: Action)
    ensures After(acts + [a]) == Next(After(acts), a)
  {
    assert (acts + [a])[..|acts|] == acts;
  }
}
