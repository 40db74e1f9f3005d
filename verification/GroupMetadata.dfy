/** Convergent group metadata (core/src/groups.rs:180-271, 422-502): an add-only
    member set and a name ordered by `(revision, changed_by)`. */
module GroupMetadata {
  import opened Bytes
  import opened ByteOrder
  import opened Sets

  const GROUP_ID_LEN := 16
  const GROUP_KEY_LEN := 32
  const USER_ID_LEN := 16
  const MAX_GROUP_MEMBERS := 64
  const MAX_GROUP_NAME_BYTES := 128

  /** Names are their UTF-8 bytes; trimming is the library's. */
  type Trim = Blob -> Blob

  datatype Group = Group(
    id: Blob, name: Blob, members: seq<Blob>, key: Blob, revision: u64, changedBy: Blob)

  datatype Update = Update(groupId: Blob, name: Blob, revision: u64, changedBy: Blob, members: seq<Blob>)

  predicate ValidName(trim: Trim, name: Blob) {
    trim(name) != [] && |name| <= MAX_GROUP_NAME_BYTES
  }

  predicate ValidMembers(members: seq<Blob>) {
    |members| <= MAX_GROUP_MEMBERS && forall i :: 0 <= i < |members| ==> |members[i]| == USER_ID_LEN
  }

  predicate ValidGroup(trim: Trim, g: Group) {
    |g.id| == GROUP_ID_LEN && ValidName(trim, g.name) && ValidMembers(g.members) && |g.key| == GROUP_KEY_LEN
    && (g.changedBy == [] || |g.changedBy| == USER_ID_LEN)
  }

  predicate ValidUpdate(trim: Trim, u: Update) {
    |u.groupId| == GROUP_ID_LEN && u.revision > 0 && |u.changedBy| == USER_ID_LEN
    && ValidName(trim, u.name) && ValidMembers(u.members)
  }

  /** The `(revision, changed_by)` order of name changes. */
  predicate StampBelow(r1: u64, by1: Blob, r2: u64, by2: Blob) {
    r1 < r2 || (r1 == r2 && Below(by1, by2))
  }

  predicate Outranks(u: Update, g: Group) {
    StampBelow(g.revision, g.changedBy, u.revision, u.changedBy)
  }

  function Merged(g: Group, u: Update): seq<Blob> {
    Canonical(g.members + u.members)
  }

  /** The group with the update merged in. */
  function Joined(g: Group, u: Update): Group {
    var h := g.(members := Merged(g, u));
    if Outranks(u, g) then h.(name := u.name, revision := u.revision, changedBy := u.changedBy) else h
  }

  /** `apply_group_metadata_update`; `None` is "no effect". */
  function Apply(trim: Trim, g: Group, u: Update, sender: Blob): Result<Option<Group>> {
    if !ValidGroup(trim, g) || !ValidUpdate(trim, u) then Malformed
    else if u.groupId != g.id || u.changedBy != sender || sender !in g.members then Malformed
    else if !ValidMembers(Merged(g, u)) then Malformed
    else if Merged(g, u) == g.members && !Outranks(u, g) then Ok(None)
    else Ok(Some(Joined(g, u)))
  }

  /** Keep the group on no effect and on an error. */
  function Take(trim: Trim, g: Group, u: Update): Group {
    var r := Apply(trim, g, u, u.changedBy);
    if r.Ok? && r.value.Some? then r.value.value else g
  }

  function TakeAll(trim: Trim, g: Group, us: seq<Update>): Group {
    if us == [] then g else Take(trim, TakeAll(trim, g, us[..|us| - 1]), us[|us| - 1])
  }

  // ---- What any order must come to ----

  ghost function AllMembers(g: Group, us: set<Update>): set<Blob> {
    Elements(g.members) + set u, m | u in us && m in u.members :: m
  }

  /** The updates of one group by its own members, with one name per stamp, and
      whose members together fit. */
  ghost predicate Concurrent(trim: Trim, g: Group, us: set<Update>) {
    && ValidGroup(trim, g)
    && (forall u :: u in us ==> ValidUpdate(trim, u) && u.groupId == g.id && u.changedBy in g.members)
    && (forall u :: u in us && u.revision == g.revision && u.changedBy == g.changedBy ==> u.name == g.name)
    && (forall u, v :: u in us && v in us && u.revision == v.revision && u.changedBy == v.changedBy
                       ==> u.name == v.name)
    && |AllMembers(g, us)| <= MAX_GROUP_MEMBERS
  }

  /** `h` is what `g` and the updates come to, without reference to an order: all
      members, and the highest-ranked name among theirs. */
  ghost predicate IsJoin(g: Group, us: set<Update>, h: Group) {
    && h.id == g.id && h.key == g.key
    && Elements(h.members) == AllMembers(g, us)
    && (us != {} ==> Ascending(h.members)) && (us == {} ==> h == g)
    && !StampBelow(h.revision, h.changedBy, g.revision, g.changedBy)
    && (forall u :: u in us ==> !Outranks(u, h))
    && (NamedBy(h, g.name, g.revision, g.changedBy)
        || exists u :: u in us && NamedBy(h, u.name, u.revision, u.changedBy))
  }

  predicate NamedBy(h: Group, name: Blob, revision: u64, who: Blob) {
    h.name == name && h.revision == revision && h.changedBy == who
  }

  lemma StampTotal(r1: u64, by1: Blob, r2: u64, by2: Blob)
    ensures StampBelow(r1, by1, r2, by2) || StampBelow(r2, by2, r1, by1) || (r1 == r2 && by1 == by2)
    ensures !(StampBelow(r1, by1, r2, by2) && StampBelow(r2, by2, r1, by1))
    ensures !StampBelow(r1, by1, r1, by1)
  {
    BelowTotal(by1, by2);
    BelowTotal(by1, by1);
  }

  lemma StampTransitive(r1: u64, by1: Blob, r2: u64, by2: Blob, r3: u64, by3: Blob)
    requires StampBelow(r1, by1, r2, by2) && StampBelow(r2, by2, r3, by3)
    ensures StampBelow(r1, by1, r3, by3)
  {
    if r1 == r2 == r3 { BelowTransitive(by1, by2, by3); }
  }

  /** There is only one such group. */
  lemma JoinUnique(trim: Trim, g: Group, us: set<Update>, h: Group, k: Group)
    requires Concurrent(trim, g, us) && IsJoin(g, us, h) && IsJoin(g, us, k)
    ensures h == k
  {
    if us != {} {
      AscendingUnique(h.members, k.members);
      StampTotal(h.revision, h.changedBy, k.revision, k.changedBy);
      hide StampBelow;
    }
  }

  lemma MergedFits(g: Group, h: Group, us: set<Update>, u: Update)
    requires Elements(h.members) <= AllMembers(g, us) && Elements(u.members) <= AllMembers(g, us)
    requires |AllMembers(g, us)| <= MAX_GROUP_MEMBERS
    requires forall m :: m in AllMembers(g, us) ==> |m| == USER_ID_LEN
    ensures ValidMembers(Merged(h, u))
    ensures Ascending(Merged(h, u)) && Elements(Merged(h, u)) == Elements(h.members) + Elements(u.members)
  {
    CanonicalLists(h.members + u.members);
    assert Elements(h.members + u.members) == Elements(h.members) + Elements(u.members);
    AscendingSize(Merged(h, u));
    SubsetSize(Elements(Merged(h, u)), AllMembers(g, us));
    forall i | 0 <= i < |Merged(h, u)| ensures |Merged(h, u)[i]| == USER_ID_LEN {
      assert Merged(h, u)[i] in Elements(Merged(h, u));
    }
  }

  lemma AllMembersShort(trim: Trim, g: Group, us: set<Update>)
    requires Concurrent(trim, g, us)
    ensures forall m :: m in AllMembers(g, us) ==> |m| == USER_ID_LEN
  {
    forall m | m in AllMembers(g, us) ensures |m| == USER_ID_LEN {
      if m !in g.members {
        var u :| u in us && m in u.members;
        assert ValidUpdate(trim, u);
      }
    }
  }

  lemma MembersWithin(g: Group, us: set<Update>, all: set<Update>, u: Update)
    requires us <= all && u in all
    ensures AllMembers(g, us) <= AllMembers(g, all) && Elements(u.members) <= AllMembers(g, all)
    ensures AllMembers(g, us + {u}) == AllMembers(g, us) + Elements(u.members)
  {
  }

  /** One more update joins the rest. */
  lemma TakeJoins(trim: Trim, g: Group, all: set<Update>, us: set<Update>, h: Group, u: Update)
    requires Concurrent(trim, g, all) && us <= all && u in all
    requires IsJoin(g, us, h) && ValidGroup(trim, h)
    ensures IsJoin(g, us + {u}, Take(trim, h, u)) && ValidGroup(trim, Take(trim, h, u))
    ensures Apply(trim, h, u, u.changedBy).Ok?
  {
    MembersWithin(g, us, all, u);
    AllMembersShort(trim, g, all);
    MergedFits(g, h, all, u);
    assert u.changedBy in Elements(h.members);
    hide ValidName, ValidMembers, Ascending, Canonical, AllMembers, Elements;
    assert Take(trim, h, u) == if Merged(h, u) == h.members && !Outranks(u, h) then h else Joined(h, u);
    NameJoins(g, us, h, u);
  }

  lemma NameJoins(g: Group, us: set<Update>, h: Group, u: Update)
    requires forall v :: v in us ==> !Outranks(v, h)
    requires !StampBelow(h.revision, h.changedBy, g.revision, g.changedBy)
    ensures var k := if Outranks(u, h) then Joined(h, u) else h;
            && (forall v :: v in us + {u} ==> !Outranks(v, k))
            && !StampBelow(k.revision, k.changedBy, g.revision, g.changedBy)
  {
    hide StampBelow, Merged;
    if Outranks(u, h) {
      StampTotal(u.revision, u.changedBy, u.revision, u.changedBy);
      forall v | v in us ensures !StampBelow(u.revision, u.changedBy, v.revision, v.changedBy) {
        if StampBelow(u.revision, u.changedBy, v.revision, v.changedBy) {
          StampTransitive(h.revision, h.changedBy, u.revision, u.changedBy, v.revision, v.changedBy);
          assert false;
        }
      }
      if StampBelow(u.revision, u.changedBy, g.revision, g.changedBy) {
        StampTransitive(h.revision, h.changedBy, u.revision, u.changedBy, g.revision, g.changedBy);
      }
    }
  }

  lemma StartsValid(trim: Trim, g: Group, all: set<Update>)
    requires Concurrent(trim, g, all)
    ensures ValidGroup(trim, g)
  {
  }

  lemma JoinOfNone(g: Group)
    ensures IsJoin(g, {}, g)
  {
    StampTotal(g.revision, g.changedBy, g.revision, g.changedBy);
  }

  ghost function Delivered(us: seq<Update>): set<Update> {
    set u | u in us
  }

  lemma DeliveredGrows(us: seq<Update>)
    ensures if us == [] then Delivered(us) == {}
            else Delivered(us) == Delivered(us[..|us| - 1]) + {us[|us| - 1]} && us[|us| - 1] in Delivered(us)
  {
    if us != [] { assert us == us[..|us| - 1] + [us[|us| - 1]]; }
  }

  lemma {:induction false} TakeAllJoins(trim: Trim, g: Group, all: set<Update>, us: seq<Update>)
    requires Concurrent(trim, g, all) && Delivered(us) <= all
    ensures IsJoin(g, Delivered(us), TakeAll(trim, g, us)) && ValidGroup(trim, TakeAll(trim, g, us))
  {
    StartsValid(trim, g, all);
    hide IsJoin, ValidGroup, Concurrent, Take, Delivered;
    DeliveredGrows(us);
    if us == [] {
      JoinOfNone(g);
    } else {
      var n := |us| - 1;
      TakeAllJoins(trim, g, all, us[..n]);
      TakeJoins(trim, g, all, Delivered(us[..n]), TakeAll(trim, g, us[..n]), us[n]);
    }
  }

  /** Any two deliveries of the same updates, in any order and with any repetition,
      leave the same group; it has every member of both, and redelivering any of
      the updates has no effect. */
  lemma Converges(trim: Trim, g: Group, all: set<Update>, us: seq<Update>, vs: seq<Update>)
    requires Concurrent(trim, g, all) && Delivered(us) <= all && Delivered(us) == Delivered(vs)
    ensures TakeAll(trim, g, us) == TakeAll(trim, g, vs)
    ensures Elements(TakeAll(trim, g, us).members) == AllMembers(g, Delivered(us))
    ensures forall u :: u in us ==> Apply(trim, TakeAll(trim, g, us), u, u.changedBy) == Ok(None)
  {
    TakeAllJoins(trim, g, all, us);
    TakeAllJoins(trim, g, all, vs);
    SubConcurrent(trim, g, all, Delivered(us));
    var h := TakeAll(trim, g, us);
    JoinUnique(trim, g, Delivered(us), h, TakeAll(trim, g, vs));
    forall u | u in us ensures Apply(trim, h, u, u.changedBy) == Ok(None) {
      RedeliveryHasNoEffect(trim, g, all, Delivered(us), h, u);
    }
  }

  lemma SubConcurrent(trim: Trim, g: Group, all: set<Update>, us: set<Update>)
    requires Concurrent(trim, g, all) && us <= all
    ensures Concurrent(trim, g, us)
  {
    assert AllMembers(g, us) <= AllMembers(g, all);
    SubsetSize(AllMembers(g, us), AllMembers(g, all));
  }

  lemma RedeliveryHasNoEffect(trim: Trim, g: Group, all: set<Update>, us: set<Update>, h: Group, u: Update)
    requires Concurrent(trim, g, all) && us <= all && u in us
    requires IsJoin(g, us, h) && ValidGroup(trim, h)
    ensures Apply(trim, h, u, u.changedBy) == Ok(None)
  {
    TakeJoins(trim, g, all, us, h, u);
    MembersWithin(g, us, all, u);
    AllMembersShort(trim, g, all);
    MergedFits(g, h, all, u);
    assert Elements(u.members) <= Elements(h.members);
    AscendingUnique(Merged(h, u), h.members);
  }

  // ---- Where the conditions on senders and room come from ----

  /** The sender is a member, and the members together fit. */
  predicate Admits(g: Group, u: Update) {
    u.changedBy in g.members && |Merged(g, u)| <= MAX_GROUP_MEMBERS
  }

  ghost predicate FitTogether(g: Group, u: Update, v: Update) {
    |AllMembers(g, {u, v})| <= MAX_GROUP_MEMBERS
  }

  /** There is room for either alone but not for both: the first in wins. */
  ghost predicate Collide(g: Group, u: Update, v: Update) {
    Admits(g, u) && Admits(g, v) && !FitTogether(g, u, v)
  }

  /** `v`'s author is let in only by `u`, and `v` would change what `u` leaves. */
  ghost predicate LetsIn(g: Group, u: Update, v: Update) {
    && Admits(g, u) && v.changedBy !in g.members && v.changedBy in u.members && FitTogether(g, u, v)
    && ((exists m :: m in v.members && m !in g.members && m !in u.members) || Outranks(v, Joined(g, u)))
  }

  /** Both rename the group under one stamp that outranks its own: the first in wins. */
  ghost predicate Rivals(g: Group, u: Update, v: Update) {
    && Admits(g, u) && Admits(g, v) && FitTogether(g, u, v)
    && u.revision == v.revision && u.changedBy == v.changedBy && u.name != v.name && Outranks(u, g)
  }

  ghost predicate ForGroup(trim: Trim, g: Group, u: Update) {
    ValidGroup(trim, g) && Ascending(g.members) && ValidUpdate(trim, u) && u.groupId == g.id
  }

  /** Any two updates of one group. */
  ghost predicate TwoUpdates(trim: Trim, g: Group, u: Update, v: Update) {
    ForGroup(trim, g, u) && ForGroup(trim, g, v)
  }

  lemma MergedShape(trim: Trim, g: Group, u: Update)
    requires ValidGroup(trim, g) && ValidUpdate(trim, u)
    ensures Ascending(Merged(g, u)) && Elements(Merged(g, u)) == Elements(g.members) + Elements(u.members)
    ensures |Merged(g, u)| == |Elements(g.members) + Elements(u.members)|
    ensures ValidMembers(Merged(g, u)) <==> |Merged(g, u)| <= MAX_GROUP_MEMBERS
  {
    CanonicalLists(g.members + u.members);
    assert Elements(g.members + u.members) == Elements(g.members) + Elements(u.members);
    AscendingSize(Merged(g, u));
    MembersShort(g.members);
    MembersShort(u.members);
    hide Canonical;
    forall i | 0 <= i < |Merged(g, u)| ensures |Merged(g, u)[i]| == USER_ID_LEN {
      assert Merged(g, u)[i] in Elements(Merged(g, u));
    }
  }

  /** An admitted update is merged in, whether or not it is reported as a change;
      any other leaves the group as it was. */
  lemma TakenExactly(trim: Trim, g: Group, u: Update)
    requires ValidGroup(trim, g) && Ascending(g.members) && ValidUpdate(trim, u) && u.groupId == g.id
    ensures Take(trim, g, u) == if Admits(g, u) then Joined(g, u) else g
    ensures ValidGroup(trim, Take(trim, g, u)) && Ascending(Take(trim, g, u).members)
    ensures Admits(g, u) ==> Elements(Take(trim, g, u).members) == Elements(g.members) + Elements(u.members)
  {
    MergedShape(trim, g, u);
    hide Elements, Ascending, Canonical, ValidMembers, ValidName, StampBelow;
  }

  lemma MembersOfPair(g: Group, u: Update, v: Update)
    ensures AllMembers(g, {u, v}) == Elements(g.members) + Elements(u.members) + Elements(v.members)
    ensures AllMembers(g, {u, v}) == AllMembers(g, {v, u})
  {
  }

  /** Two updates commute exactly when they neither collide nor are rivals, and
      neither's author is let in by the other while still having something to add. */
  lemma CommuteExactly(trim: Trim, g: Group, u: Update, v: Update)
    requires TwoUpdates(trim, g, u, v)
    ensures Take(trim, Take(trim, g, u), v) == Take(trim, Take(trim, g, v), u)
       <==> !Collide(g, u, v) && !Rivals(g, u, v) && !LetsIn(g, u, v) && !LetsIn(g, v, u)
  {
    hide Take, ValidGroup, ValidUpdate, Ascending, AllMembers, Admits, Outranks;
    MembersOfPair(g, u, v);
    TakenExactly(trim, g, u);
    TakenExactly(trim, g, v);
    if Admits(g, u) && Admits(g, v) {
      AdmittedAreMembers(g, u);
      AdmittedAreMembers(g, v);
      if FitTogether(g, u, v) {
        BothFitCommutes(trim, g, u, v);
      } else {
        FirstInWins(trim, g, u, v);
      }
    } else if Admits(g, u) {
      OneAdmittedCommutes(trim, g, u, v);
    } else if Admits(g, v) {
      OneAdmittedCommutes(trim, g, v, u);
    }
  }

  lemma AdmittedAreMembers(g: Group, u: Update)
    requires Admits(g, u)
    ensures u.changedBy in g.members
  {
  }

  /** After `u`, whether `v` is admitted, from the members alone. */
  lemma AdmittedAfter(trim: Trim, g: Group, u: Update, v: Update)
    requires TwoUpdates(trim, g, u, v) && Admits(g, u)
    ensures Admits(Take(trim, g, u), v)
       <==> (v.changedBy in g.members || v.changedBy in u.members) && FitTogether(g, u, v)
  {
    hide Take, Ascending, Canonical, AllMembers, Elements, Merged;
    var h := Take(trim, g, u);
    TakenExactly(trim, g, u);
    MergedShape(trim, h, v);
    MembersOfPair(g, u, v);
    InElements(v.changedBy, h.members);
    InElements(v.changedBy, g.members);
    InElements(v.changedBy, u.members);
  }

  lemma InElements(m: Blob, s: seq<Blob>)
    ensures m in s <==> m in Elements(s)
  {
  }

  lemma FirstInWins(trim: Trim, g: Group, u: Update, v: Update)
    requires TwoUpdates(trim, g, u, v) && Collide(g, u, v)
    ensures Take(trim, Take(trim, g, u), v) == Take(trim, g, u) != Take(trim, g, v) == Take(trim, Take(trim, g, v), u)
  {
    hide Take, Ascending, Canonical, AllMembers, Elements, Merged, ValidGroup, ValidUpdate, StampBelow;
    MembersOfPair(g, u, v);
    TakenExactly(trim, g, u);
    TakenExactly(trim, g, v);
    AdmittedAfter(trim, g, u, v);
    AdmittedAfter(trim, g, v, u);
    TakenExactly(trim, Take(trim, g, u), v);
    TakenExactly(trim, Take(trim, g, v), u);
    MergedShape(trim, g, u);
    assert Elements(g.members) + Elements(u.members) == Elements(g.members) + Elements(v.members) ==>
      AllMembers(g, {u, v}) == Elements(g.members) + Elements(u.members);
  }

  lemma OneAdmittedCommutes(trim: Trim, g: Group, u: Update, v: Update)
    requires TwoUpdates(trim, g, u, v) && Admits(g, u) && !Admits(g, v)
    ensures Take(trim, Take(trim, g, u), v) == Take(trim, Take(trim, g, v), u) <==> !LetsIn(g, u, v)
  {
    hide Take, Ascending, Canonical, AllMembers, Elements, Merged, ValidGroup, ValidUpdate, StampBelow;
    var h := Take(trim, g, u);
    TakenExactly(trim, g, u);
    TakenExactly(trim, g, v);
    AdmittedAfter(trim, g, u, v);
    TakenExactly(trim, h, v);
    if Admits(h, v) {
      RoomBefore(trim, g, u, v);
      MergedShape(trim, h, v);
      ElementsCover(v.members, g.members, u.members);
      StaysPut(trim, h, v);
    }
  }

  /** Where both fit, one fits alone. */
  lemma RoomBefore(trim: Trim, g: Group, u: Update, v: Update)
    requires TwoUpdates(trim, g, u, v) && FitTogether(g, u, v)
    ensures |Merged(g, v)| <= MAX_GROUP_MEMBERS
  {
    MergedShape(trim, g, v);
    MembersOfPair(g, u, v);
    SubsetSize(Elements(g.members) + Elements(v.members), AllMembers(g, {u, v}));
  }

  /** With room for both, the members agree either way, and the names unless the
      two are rivals. */
  lemma BothFitCommutes(trim: Trim, g: Group, u: Update, v: Update)
    requires TwoUpdates(trim, g, u, v) && Admits(g, u) && Admits(g, v) && FitTogether(g, u, v)
    ensures Take(trim, Take(trim, g, u), v) == Take(trim, Take(trim, g, v), u) <==> !Rivals(g, u, v)
  {
    hide Take, Ascending, Canonical, AllMembers, Elements, Merged;
    hide ValidGroup, ValidUpdate, StampBelow, Outranks, Admits;
    MembersOfPair(g, u, v);
    AdmittedAreMembers(g, u);
    AdmittedAreMembers(g, v);
    BothTaken(trim, g, u, v);
    BothTaken(trim, g, v, u);
    assert Elements(g.members) + Elements(u.members) + Elements(v.members)
        == Elements(g.members) + Elements(v.members) + Elements(u.members);
    AscendingUnique(Take(trim, Take(trim, g, u), v).members, Take(trim, Take(trim, g, v), u).members);
    NamesCommute(g, u, v);
  }

  lemma BothTaken(trim: Trim, g: Group, u: Update, v: Update)
    requires TwoUpdates(trim, g, u, v) && Admits(g, u) && v.changedBy in g.members && FitTogether(g, u, v)
    ensures var k := Take(trim, Take(trim, g, u), v);
            && k == Joined(Joined(g, u), v) && Ascending(k.members)
            && Elements(k.members) == Elements(g.members) + Elements(u.members) + Elements(v.members)
  {
    hide Take, Ascending, Canonical, AllMembers, Elements, Merged, StampBelow;
    TakenExactly(trim, g, u);
    AdmittedAfter(trim, g, u, v);
    TakenExactly(trim, Take(trim, g, u), v);
  }

  /** The name two updates leave, in either order. */
  lemma NamesCommute(g: Group, u: Update, v: Update)
    ensures var k, l := Joined(Joined(g, u), v), Joined(Joined(g, v), u);
            && k.id == l.id && k.key == l.key
            && (NamedBy(k, l.name, l.revision, l.changedBy)
                <==> !(u.revision == v.revision && u.changedBy == v.changedBy && u.name != v.name && Outranks(u, g)))
  {
    hide StampBelow, Merged;
    StampTotal(u.revision, u.changedBy, v.revision, v.changedBy);
    StampTotal(v.revision, v.changedBy, u.revision, u.changedBy);
    if Outranks(u, g) && StampBelow(u.revision, u.changedBy, v.revision, v.changedBy) {
      StampTransitive(g.revision, g.changedBy, u.revision, u.changedBy, v.revision, v.changedBy);
    }
    if Outranks(v, g) && StampBelow(v.revision, v.changedBy, u.revision, u.changedBy) {
      StampTransitive(g.revision, g.changedBy, v.revision, v.changedBy, u.revision, u.changedBy);
    }
  }

  lemma MembersShort(members: seq<Blob>)
    requires ValidMembers(members)
    ensures forall m :: m in Elements(members) ==> |m| == USER_ID_LEN
    ensures forall m :: m in members ==> |m| == USER_ID_LEN
  {
  }

  lemma ElementsCover(s: seq<Blob>, a: seq<Blob>, b: seq<Blob>)
    ensures Elements(s) <= Elements(a) + Elements(b) <==> !(exists m :: m in s && m !in a && m !in b)
    ensures forall m :: m in a <==> m in Elements(a)
  {
    if Elements(s) <= Elements(a) + Elements(b) {
      forall m | m in s ensures m in a || m in b {
        assert m in Elements(s);
      }
    }
  }

  /** A member's update leaves an ascending group as it was exactly when it brings
      no member and no higher stamp. */
  lemma StaysPut(trim: Trim, h: Group, v: Update)
    requires ValidGroup(trim, h) && ValidUpdate(trim, v) && v.groupId == h.id && v.changedBy in h.members
    requires ValidMembers(Merged(h, v)) && Ascending(h.members) && Ascending(Merged(h, v))
    requires Elements(Merged(h, v)) == Elements(h.members) + Elements(v.members)
    ensures Take(trim, h, v) == h <==> Elements(v.members) <= Elements(h.members) && !Outranks(v, h)
  {
    if Elements(v.members) <= Elements(h.members) {
      assert Elements(Merged(h, v)) == Elements(h.members);
      AscendingUnique(Merged(h, v), h.members);
    }
    StampTotal(v.revision, v.changedBy, v.revision, v.changedBy);
    hide Ascending, StampBelow, ValidMembers, ValidName, Canonical;
  }

  // ---- Three pairs that do not commute ----

  function SampleUser(n: byte): (id: Blob)
    ensures |id| == USER_ID_LEN && id[0] == n
  {
    [n, 0, 0, 0, 0, 0, 0, 0, 0, 0, 0, 0, 0, 0, 0, 0]
  }

  function SampleGroup(): Group {
    Group(SampleUser(9), [65], [SampleUser(0)], SampleUser(9) + SampleUser(9), 0, [])
  }

  function SampleUsers(from: nat, to: nat): (s: seq<Blob>)
    requires from <= to <= 256
    ensures |s| == to - from
  {
    seq(to - from, i requires 0 <= i < to - from => SampleUser(from + i))
  }

  function SampleUpdate(author: byte, members: seq<Blob>): Update {
    Update(SampleUser(9), [65], 1, SampleUser(author), members)
  }

  lemma SampleUpdateFits(author: byte, members: seq<Blob>)
    requires ValidMembers(members)
    ensures ForGroup(n => n, SampleGroup(), SampleUpdate(author, members))
    ensures ValidUpdate(n => n, SampleUpdate(author, members))
  {
  }

  /** User 0 adds user 1, and user 1 adds user 2: in the other order user 1 is not
      heard. */
  lemma LettingInMatters()
    ensures var g, trim := SampleGroup(), (n: Blob) => n;
            var u, v := SampleUpdate(0, SampleUsers(1, 2)), SampleUpdate(1, SampleUsers(2, 3));
            TwoUpdates(trim, g, u, v) && Take(trim, Take(trim, g, u), v) != Take(trim, Take(trim, g, v), u)
  {
    hide Take, Merged, StampBelow, Ascending, SampleUser, SampleUsers, FitTogether;
    hide ValidGroup, ValidUpdate, ValidMembers, Collide, Admits, Outranks, ForGroup;
    var g, trim := SampleGroup(), (n: Blob) => n;
    var u, v := SampleUpdate(0, SampleUsers(1, 2)), SampleUpdate(1, SampleUsers(2, 3));
    OneSampleUser(1);
    OneSampleUser(2);
    SampleUpdateFits(0, u.members);
    SampleUpdateFits(1, v.members);
    SampleAdmits(u);
    FewFitTogether(g, u, v);
    assert SampleUser(2) in v.members;
    assert LetsIn(g, u, v);
    CommuteExactly(trim, g, u, v);
  }

  lemma OneSampleUser(n: byte)
    requires n < 255
    ensures SampleUsers(n, n + 1) == [SampleUser(n)] && ValidMembers(SampleUsers(n, n + 1))
  {
  }

  lemma FewFitTogether(g: Group, u: Update, v: Update)
    requires |g.members + u.members + v.members| <= MAX_GROUP_MEMBERS
    ensures FitTogether(g, u, v)
  {
    hide AllMembers;
    var all := g.members + u.members + v.members;
    MembersOfPair(g, u, v);
    assert Elements(all) == Elements(g.members) + Elements(u.members) + Elements(v.members);
    ListSize(all);
  }

  lemma SampleUsersAscend(from: nat, to: nat)
    requires from <= to <= 256
    ensures Ascending(SampleUsers(from, to)) && |Elements(SampleUsers(from, to))| == to - from
  {
    var s := SampleUsers(from, to);
    forall i, j | 0 <= i < j < |s| ensures Below(s[i], s[j]) {
      assert s[i] == SampleUser(from + i) && s[j] == SampleUser(from + j);
    }
    AscendingSize(s);
  }

  /** User 0 adds 63 users, and 63 others, to a group of one: there is room for
      either, so whichever comes first is kept. */
  lemma RoomRunsOut()
    ensures var g, trim := SampleGroup(), (n: Blob) => n;
            var u, v := SampleUpdate(0, SampleUsers(1, 64)), SampleUpdate(0, SampleUsers(64, 127));
            TwoUpdates(trim, g, u, v) && Take(trim, Take(trim, g, u), v) != Take(trim, Take(trim, g, v), u)
  {
    var g, trim := SampleGroup(), (n: Blob) => n;
    var u, v := SampleUpdate(0, SampleUsers(1, 64)), SampleUpdate(0, SampleUsers(64, 127));
    SampleUpdateFits(0, u.members);
    SampleUpdateFits(0, v.members);
    hide Take, Merged, StampBelow, Ascending, SampleUser, SampleUsers;
    SampleAdmits(u);
    SampleAdmits(v);
    TooManyTogether(u, v);
    CommuteExactly(trim, g, u, v);
  }

  /** User 0 renames the group to two names from one revision, as on two phones. */
  lemma RenamedTwice()
    ensures var g, trim := SampleGroup(), (n: Blob) => n;
            var u := SampleUpdate(0, SampleUsers(0, 1));
            var v := u.(name := [66]);
            TwoUpdates(trim, g, u, v) && Take(trim, Take(trim, g, u), v) != Take(trim, Take(trim, g, v), u)
  {
    hide Take, Merged, StampBelow, Ascending, SampleUser, SampleUsers, FitTogether;
    hide ValidMembers, Collide, Admits, Outranks;
    var g, trim := SampleGroup(), (n: Blob) => n;
    var u := SampleUpdate(0, SampleUsers(0, 1));
    var v := u.(name := [66]);
    OneSampleUser(0);
    SampleUpdateFits(0, u.members);
    SampleAdmits(u);
    SampleAdmits(v);
    FewFitTogether(g, u, v);
    HigherOutranks(u, g);
    assert [65][0] != [66][0];
    assert Rivals(g, u, v);
    CommuteExactly(trim, g, u, v);
  }

  lemma SampleAdmits(u: Update)
    requires ValidUpdate(n => n, u) && u.changedBy == SampleUser(0) && |u.members| <= 63
    ensures Admits(SampleGroup(), u)
  {
    var g := SampleGroup();
    hide StampBelow, Merged;
    MergedShape(n => n, g, u);
    ListSize(g.members + u.members);
    assert Elements(g.members + u.members) == Elements(g.members) + Elements(u.members);
  }

  lemma TooManyTogether(u: Update, v: Update)
    requires u.members == SampleUsers(1, 64) && v.members == SampleUsers(64, 127)
    ensures !FitTogether(SampleGroup(), u, v)
  {
    SampleUsersAscend(1, 127);
    MembersOfPair(SampleGroup(), u, v);
    assert SampleUsers(1, 127) == u.members + v.members;
    hide SampleUsers, Ascending, AllMembers;
    assert Elements(u.members + v.members) == Elements(u.members) + Elements(v.members);
    SubsetSize(Elements(SampleUsers(1, 127)), AllMembers(SampleGroup(), {u, v}));
  }

  // ---- The operation, on the values' own fields ----

  ghost predicate NameSpelled(trim: Trim, name: Blob) {
    trim(name) != [] && |name| <= 128
  }

  ghost predicate MembersSpelled(members: seq<Blob>) {
    |members| <= 64 && forall m :: m in members ==> |m| == 16
  }

  ghost predicate GroupSpelled(trim: Trim, g: Group) {
    && |g.id| == 16 && NameSpelled(trim, g.name) && MembersSpelled(g.members) && |g.key| == 32
    && (|g.changedBy| == 0 || |g.changedBy| == 16)
  }

  ghost predicate UpdateSpelled(trim: Trim, u: Update) {
    && |u.groupId| == 16 && u.revision >= 1 && |u.changedBy| == 16
    && NameSpelled(trim, u.name) && MembersSpelled(u.members)
  }

  /** A higher revision, or at the same one an author whose id sorts later. */
  ghost predicate Renames(u: Update, g: Group) {
    u.revision > g.revision || (u.revision == g.revision && exists k: nat :: PartsBelow(g.changedBy, u.changedBy, k))
  }

  lemma MembersValid(members: seq<Blob>)
    ensures ValidMembers(members) <==> MembersSpelled(members)
  {
    assert forall i :: 0 <= i < |members| ==> members[i] in members;
  }

  /** The update is taken, from any sender, exactly when the sender is its author and a
      member, it is of this group, both are well-formed, and the members together are
      at most 64; then it says "no effect" exactly when it adds no member and does not
      rename; otherwise the group has the members of both in order, and the name, the
      revision and the author of whichever renames. */
  lemma ApplyExactly(trim: Trim, g: Group, u: Update, sender: Blob)
    ensures var r := Apply(trim, g, u, sender);
            && (r.Ok? <==>
                  && GroupSpelled(trim, g) && UpdateSpelled(trim, u) && u.groupId == g.id
                  && u.changedBy == sender && sender in g.members
                  && |Elements(g.members) + Elements(u.members)| <= 64)
            && (r.Ok? && r.value.None? <==>
                  r.Ok? && Ascending(g.members) && Elements(u.members) <= Elements(g.members) && !Renames(u, g))
            && (r.Ok? && r.value.Some? ==>
                  var h := r.value.value;
                  && h.id == g.id && h.key == g.key && Ascending(h.members)
                  && Elements(h.members) == Elements(g.members) + Elements(u.members)
                  && (h.name, h.revision, h.changedBy)
                     == if Renames(u, g) then (u.name, u.revision, u.changedBy) else (g.name, g.revision, g.changedBy))
  {
    MembersValid(g.members);
    MembersValid(u.members);
    BelowSpelled(g.changedBy, u.changedBy);
    hide MembersSpelled, PartsBelow, Below;
    if ValidGroup(trim, g) && ValidUpdate(trim, u) {
      MergedShape(trim, g, u);
      SameListing(g, u);
    }
    hide ValidMembers, Ascending, Elements, Merged;
  }

  lemma SameListing(g: Group, u: Update)
    requires Ascending(Merged(g, u)) && Elements(Merged(g, u)) == Elements(g.members) + Elements(u.members)
    ensures Merged(g, u) == g.members <==> Ascending(g.members) && Elements(u.members) <= Elements(g.members)
  {
    hide Elements, Merged;
    if Ascending(g.members) && Elements(u.members) <= Elements(g.members) {
      assert Elements(g.members) + Elements(u.members) == Elements(g.members);
      AscendingUnique(Merged(g, u), g.members);
    }
  }

  // ---- Authoring ----

  /** `create_group_metadata_update`. */
  function CreateUpdate(trim: Trim, g: Group, changedBy: Blob, name: Blob, members: seq<Blob>): Result<Update> {
    if !ValidGroup(trim, g) || changedBy !in g.members then Malformed
    else if !ValidName(trim, trim(name)) || !ValidMembers(members) then Malformed
    else if exists i :: 0 <= i < |g.members| && g.members[i] !in Canonical(members) then Malformed
    else if g.revision == 0xFFFF_FFFF_FFFF_FFFF then Malformed
    else Ok(Update(g.id, trim(name), g.revision + 1, changedBy, Canonical(members)))
  }

  /** Authoring succeeds exactly for a member of a well-formed group, a name and members
      within bounds, none of them left out, below the last revision; and the update asks
      for just that, one revision on. */
  lemma CreatedExactly(trim: Trim, g: Group, changedBy: Blob, name: Blob, members: seq<Blob>)
    ensures var r := CreateUpdate(trim, g, changedBy, name, members);
            && (r.Ok? <==>
                  && GroupSpelled(trim, g) && changedBy in g.members && NameSpelled(trim, trim(name))
                  && MembersSpelled(members) && Elements(g.members) <= Elements(members)
                  && g.revision < 0xFFFF_FFFF_FFFF_FFFF)
            && (r.Ok? ==>
                  && r.value.groupId == g.id && r.value.name == trim(name) && r.value.changedBy == changedBy
                  && r.value.revision == g.revision + 1
                  && Ascending(r.value.members) && Elements(r.value.members) == Elements(members))
  {
    MembersValid(g.members);
    MembersValid(members);
    CanonicalLists(members);
    hide MembersSpelled, ValidMembers, Canonical, Ascending;
    forall i | 0 <= i < |g.members| ensures g.members[i] in Canonical(members) <==> g.members[i] in Elements(members) {
      InElements(g.members[i], Canonical(members));
    }
  }

  /** An update authored on a group always takes effect on it, and gives exactly
      the name and members asked for. */
  lemma AuthoredUpdateApplies(trim: Trim, g: Group, changedBy: Blob, name: Blob, members: seq<Blob>)
    requires CreateUpdate(trim, g, changedBy, name, members).Ok?
    ensures var u := CreateUpdate(trim, g, changedBy, name, members).value;
            Apply(trim, g, u, changedBy)
            == Ok(Some(g.(name := trim(name), members := Canonical(members),
                          revision := g.revision + 1, changedBy := changedBy)))
  {
    hide Canonical, ValidMembers, ValidName, Outranks;
    var u := CreateUpdate(trim, g, changedBy, name, members).value;
    HigherOutranks(u, g);
    CanonicalSettles(g.members, members);
    CanonicalShort(members);
    MembersShort(g.members);
    assert ValidUpdate(trim, u) && Merged(g, u) == u.members;
  }

  lemma HigherOutranks(u: Update, g: Group)
    requires u.revision > g.revision
    ensures Outranks(u, g)
  {
  }

  /** Adding members already listed changes nothing. */
  lemma CanonicalSettles(listed: seq<Blob>, members: seq<Blob>)
    requires forall i :: 0 <= i < |listed| ==> listed[i] in Canonical(members)
    ensures Canonical(listed + Canonical(members)) == Canonical(members)
  {
    hide Canonical;
    CanonicalLists(members);
    CanonicalLists(listed + Canonical(members));
    assert Elements(listed + Canonical(members)) == Elements(Canonical(members));
    AscendingUnique(Canonical(listed + Canonical(members)), Canonical(members));
  }

  lemma CanonicalShort(members: seq<Blob>)
    requires ValidMembers(members)
    ensures ValidMembers(Canonical(members))
  {
    hide Canonical;
    CanonicalLists(members);
    AscendingSize(Canonical(members));
    ListSize(members);
    forall i | 0 <= i < |Canonical(members)| ensures |Canonical(members)[i]| == USER_ID_LEN {
      assert Canonical(members)[i] in Elements(Canonical(members));
      assert Canonical(members)[i] in members;
    }
  }

  lemma {:induction false} ListSize(s: seq<Blob>)
    ensures |Elements(s)| <= |s|
  {
    if s == [] {
    } else {
      ListSize(s[1..]);
      assert s == [s[0]] + s[1..];
      assert Elements(s) == Elements(s[1..]) + {s[0]};
    }
  }
}
