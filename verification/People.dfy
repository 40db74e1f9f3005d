/** Grouping and ordering the People section (core/src/connection_health.rs:540-806). */
module People {
  import opened Bytes
  import opened ByteOrder

  const PRESENCE_ONLINE_WINDOW_MS := 150_000
  const I64_MAX := 0x7FFF_FFFF_FFFF_FFFF

  datatype DirectLink = Bluetooth | LocalWifi
  datatype Attention = Delayed | MessageTooLarge | PassBlocked | SetupRejected
  datatype Reach = DirectBluetooth | DirectLocalWifi | RelayPresence | Unreachable
  datatype Group = NeedsAttention | ReachableNow | OtherPeople

  datatype Person = Person(
    userId: Blob,
    displayName: Blob,
    blocked: bool,
    directLink: Option<DirectLink>,
    presenceLastSeenMs: int,
    lastSeenMs: int,
    attention: Option<Attention>,
    attentionSinceMs: int)

  datatype Placement = Placement(userId: Blob, group: Group, reach: Reach, attention: Option<Attention>)
  datatype Groups = Groups(needsAttention: seq<Placement>, reachableNow: seq<Placement>, otherPeople: seq<Placement>)

  /** What the caller knows beside the people: whether the own relay works, the
      clock, and how names are lower-cased. */
  datatype Context = Context(ownRelayUsable: bool, nowMs: int, lower: Blob -> Blob)

  function AttentionRank(a: Attention): nat {
    match a
    case SetupRejected => 4
    case PassBlocked => 3
    case MessageTooLarge => 2
    case Delayed => 1
  }

  function PersonReach(p: Person, c: Context): Reach {
    if p.directLink == Some(Bluetooth) then DirectBluetooth
    else if p.directLink == Some(LocalWifi) then DirectLocalWifi
    else if c.ownRelayUsable && 0 < p.presenceLastSeenMs <= c.nowMs
            && c.nowMs - p.presenceLastSeenMs <= PRESENCE_ONLINE_WINDOW_MS then RelayPresence
    else Unreachable
  }

  function GroupOf(p: Person, c: Context): Group {
    if p.attention.Some? then NeedsAttention
    else if PersonReach(p, c) != Unreachable then ReachableNow
    else OtherPeople
  }

  function Place(p: Person, c: Context): Placement {
    Placement(p.userId, GroupOf(p, c), PersonReach(p, c), p.attention)
  }

  function NewestEvidenceMs(p: Person): nat {
    var newest := if p.lastSeenMs < p.presenceLastSeenMs then p.presenceLastSeenMs else p.lastSeenMs;
    if newest < 0 then 0 else newest
  }

  /** The four reasons, worst first. */
  predicate Worse(a: Attention, b: Attention) {
    match a
    case SetupRejected => b != SetupRejected
    case PassBlocked => b == MessageTooLarge || b == Delayed
    case MessageTooLarge => b == Delayed
    case Delayed => false
  }

  lemma RanksExactly(a: Attention, b: Attention)
    ensures AttentionRank(a) > AttentionRank(b) <==> Worse(a, b)
    ensures AttentionRank(a) == AttentionRank(b) <==> a == b
  {
  }

  /** Seen over the relay in the last 150 seconds, by a clock that is not behind it. */
  predicate Present(p: Person, c: Context) {
    p.presenceLastSeenMs > 0 && 0 <= c.nowMs - p.presenceLastSeenMs <= 150_000
  }

  /** A person's row: whose it is, in which group, and how they are reached, on their own
      fields. */
  lemma PlacedExactly(p: Person, c: Context)
    ensures var place := Place(p, c);
            && place.userId == p.userId && place.attention == p.attention
            && (place.reach == DirectBluetooth <==> p.directLink == Some(Bluetooth))
            && (place.reach == DirectLocalWifi <==> p.directLink == Some(LocalWifi))
            && (place.reach == RelayPresence <==> p.directLink == None && c.ownRelayUsable && Present(p, c))
            && (place.group == NeedsAttention <==> p.attention.Some?)
            && (place.group == ReachableNow <==>
                  p.attention.None? && (p.directLink.Some? || (c.ownRelayUsable && Present(p, c))))
            && place.group == GroupOf(p, c)
  {
    assert p.directLink.Some? ==> p.directLink.value == Bluetooth || p.directLink.value == LocalWifi;
  }

  /** The freshest of the two stamps, or zero if neither is past it. */
  lemma NewestEvidenceExactly(p: Person)
    ensures var n := NewestEvidenceMs(p);
            && n >= p.lastSeenMs && n >= p.presenceLastSeenMs && n >= 0
            && (n == p.lastSeenMs || n == p.presenceLastSeenMs || n == 0)
  {
  }

  // ---- The three orders ----

  /** What a list is sorted by: two numbers, then the lower-cased name, then the id. */
  datatype Key = Key(first: int, second: int, name: Blob, id: Blob)

  predicate Before(a: Key, b: Key) {
    a.first < b.first
    || (a.first == b.first && (a.second < b.second
    || (a.second == b.second && (Below(a.name, b.name)
    || (a.name == b.name && Below(a.id, b.id))))))
  }

  /** Most severe first, then the oldest, an unknown age last. Freshest first. */
  function KeyIn(g: Group, c: Context): Person -> Key {
    match g
    case NeedsAttention => (p: Person) =>
      Key(if p.attention.Some? then 0 - AttentionRank(p.attention.value) else 0,
          if p.attentionSinceMs > 0 then p.attentionSinceMs else I64_MAX,
          c.lower(p.displayName), p.userId)
    case ReachableNow => (p: Person) => Key(0, 0, c.lower(p.displayName), p.userId)
    case OtherPeople => (p: Person) => Key(0 - NewestEvidenceMs(p), 0, c.lower(p.displayName), p.userId)
  }

  lemma BeforeTotal(a: Key, b: Key)
    ensures Before(a, b) || a == b || Before(b, a)
    ensures !(Before(a, b) && (a == b || Before(b, a)))
  {
    BelowTotal(a.name, b.name);
    BelowTotal(a.id, b.id);
  }

  lemma BeforeTransitive(a: Key, b: Key, c: Key)
    requires Before(a, b) && Before(b, c)
    ensures Before(a, c)
  {
    if Below(a.name, b.name) && Below(b.name, c.name) { BelowTransitive(a.name, b.name, c.name); }
    if Below(a.id, b.id) && Below(b.id, c.id) { BelowTransitive(a.id, b.id, c.id); }
  }

  /** Not being before carries over. */
  lemma NotBeforeTransitive(a: Key, b: Key, c: Key)
    requires !Before(a, b) && !Before(b, c)
    ensures !Before(a, c)
  {
    hide Before;
    BeforeTotal(b, c);
    if Before(a, c) && Before(c, b) { BeforeTransitive(a, c, b); }
  }

  // ---- Stable sorting ----

  function InsertBy<T>(xs: seq<T>, x: T, key: T -> Key): seq<T> {
    if xs == [] then [x]
    else
      var n := |xs| - 1;
      if Before(key(x), key(xs[n])) then InsertBy(xs[..n], x, key) + [xs[n]] else xs + [x]
  }

  /** `sort_by`: equal elements keep their order. */
  function SortBy<T>(xs: seq<T>, key: T -> Key): seq<T> {
    if xs == [] then [] else InsertBy(SortBy(xs[..|xs| - 1], key), xs[|xs| - 1], key)
  }

  ghost predicate Ordered<T>(xs: seq<T>, key: T -> Key) {
    forall i, j :: 0 <= i < j < |xs| ==> !Before(key(xs[j]), key(xs[i]))
  }

  lemma Appended<T>(xs: seq<T>, x: T, key: T -> Key)
    requires Ordered(xs, key) && forall y :: y in multiset(xs) ==> !Before(key(x), key(y))
    ensures Ordered(xs + [x], key) && multiset(xs + [x]) == multiset(xs) + multiset{x}
  {
    hide Before;
    forall i | 0 <= i < |xs| ensures !Before(key(x), key(xs[i])) { assert xs[i] in multiset(xs); }
  }

  lemma FrontOrdered<T>(xs: seq<T>, key: T -> Key)
    requires xs != [] && Ordered(xs, key)
    ensures var n := |xs| - 1;
            && Ordered(xs[..n], key) && multiset(xs) == multiset(xs[..n]) + multiset{xs[n]}
            && forall y :: y in multiset(xs[..n]) ==> !Before(key(xs[n]), key(y))
  {
    hide Before;
    var n := |xs| - 1;
    assert xs == xs[..n] + [xs[n]];
    forall y | y in multiset(xs[..n]) ensures !Before(key(xs[n]), key(y)) {
      assert y in xs[..n];
    }
  }

  lemma {:induction false} InsertKeeps<T>(xs: seq<T>, x: T, key: T -> Key)
    requires Ordered(xs, key)
    ensures Ordered(InsertBy(xs, x, key), key) && multiset(InsertBy(xs, x, key)) == multiset(xs) + multiset{x}
  {
    hide Before, Ordered;
    if xs == [] {
      Appended(xs, x, key);
      assert xs + [x] == [x];
    } else {
      var n := |xs| - 1;
      var last := xs[n];
      FrontOrdered(xs, key);
      BeforeTotal(key(x), key(last));
      if Before(key(x), key(last)) {
        InsertKeeps(xs[..n], x, key);
        Appended(InsertBy(xs[..n], x, key), last, key);
      } else {
        forall y | y in multiset(xs) ensures !Before(key(x), key(y)) {
          if y in multiset(xs[..n]) { NotBeforeTransitive(key(x), key(last), key(y)); }
        }
        Appended(xs, x, key);
      }
    }
  }

  /** Sorting puts the same elements in order. */
  lemma {:induction false} SortBySorts<T>(xs: seq<T>, key: T -> Key)
    ensures Ordered(SortBy(xs, key), key) && multiset(SortBy(xs, key)) == multiset(xs)
  {
    if xs == [] {
      assert SortBy(xs, key) == [];
    } else {
      hide Before, Ordered;
      var n := |xs| - 1;
      assert xs == xs[..n] + [xs[n]];
      SortBySorts(xs[..n], key);
      InsertKeeps(SortBy(xs[..n], key), xs[n], key);
    }
  }

  /** Elements with one key are one element. */
  ghost predicate KeyedApart<T>(bag: multiset<T>, key: T -> Key) {
    forall a, b :: a in bag && b in bag && key(a) == key(b) ==> a == b
  }

  lemma {:induction false} OrderedUnique<T>(xs: seq<T>, ys: seq<T>, key: T -> Key)
    requires Ordered(xs, key) && Ordered(ys, key) && multiset(xs) == multiset(ys) && KeyedApart(multiset(xs), key)
    ensures xs == ys
  {
    hide Before, Ordered, KeyedApart;
    assert |xs| == |multiset(xs)| == |multiset(ys)| == |ys|;
    if xs == [] {
    } else {
      var n := |xs| - 1;
      FrontOrdered(xs, key);
      FrontOrdered(ys, key);
      SameLast(xs[n], multiset(xs[..n]), ys[n], multiset(ys[..n]), key);
      OrderedUnique(xs[..n], ys[..n], key);
      assert xs == xs[..n] + [xs[n]] && ys == ys[..n] + [ys[n]];
    }
  }

  /** Two elements, each last among the same ones, are the same. */
  lemma SameLast<T>(x: T, xs: multiset<T>, y: T, ys: multiset<T>, key: T -> Key)
    requires xs + multiset{x} == ys + multiset{y} && KeyedApart(xs + multiset{x}, key)
    requires (forall z :: z in xs ==> !Before(key(x), key(z))) && (forall z :: z in ys ==> !Before(key(y), key(z)))
    ensures x == y && xs == ys && KeyedApart(xs, key)
  {
    hide Before;
    BeforeTotal(key(x), key(y));
    assert y in xs + multiset{x} && x in ys + multiset{y};
    assert x != y ==> y in xs && x in ys;
    assert xs == (xs + multiset{x}) - multiset{x} && ys == (ys + multiset{y}) - multiset{y};
    assert forall a :: a in xs ==> a in xs + multiset{x};
  }

  // ---- Grouping ----

  predicate Belongs(p: Person, g: Group, c: Context) {
    !p.blocked && GroupOf(p, c) == g
  }

  function Members(people: seq<Person>, g: Group, c: Context): seq<Person> {
    if people == [] then []
    else
      var n := |people| - 1;
      Members(people[..n], g, c) + if Belongs(people[n], g, c) then [people[n]] else []
  }

  /** One list of the page, before placements replace people. */
  function Listed(people: seq<Person>, g: Group, c: Context): seq<Person> {
    SortBy(Members(people, g, c), KeyIn(g, c))
  }

  function Placements(people: seq<Person>, c: Context): (s: seq<Placement>)
    ensures |s| == |people|
  {
    seq(|people|, i requires 0 <= i < |people| => Place(people[i], c))
  }

  function Grouped(people: seq<Person>, c: Context): Groups {
    Groups(Placements(Listed(people, NeedsAttention, c), c),
           Placements(Listed(people, ReachableNow, c), c),
           Placements(Listed(people, OtherPeople, c), c))
  }

  method GroupPeople(people: seq<Person>, c: Context) returns (r: Groups)
    ensures r == Grouped(people, c)
  {
    var needs, reachable, others := [], [], [];
    for i := 0 to |people|
      invariant needs == Members(people[..i], NeedsAttention, c)
      invariant reachable == Members(people[..i], ReachableNow, c)
      invariant others == Members(people[..i], OtherPeople, c)
    {
      assert people[..i + 1][..i] == people[..i];
      var person := people[i];
      if !person.blocked {
        match GroupOf(person, c)
        case NeedsAttention => needs := needs + [person];
        case ReachableNow => reachable := reachable + [person];
        case OtherPeople => others := others + [person];
      }
    }
    assert people[..|people|] == people;
    needs := SortBy(needs, KeyIn(NeedsAttention, c));
    reachable := SortBy(reachable, KeyIn(ReachableNow, c));
    others := SortBy(others, KeyIn(OtherPeople, c));
    r := Groups(Placements(needs, c), Placements(reachable, c), Placements(others, c));
  }

  /** How often a person is listed in a group. */
  lemma {:induction false} MembersCount(people: seq<Person>, g: Group, c: Context, p: Person)
    ensures multiset(Members(people, g, c))[p] == if Belongs(p, g, c) then multiset(people)[p] else 0
  {
    if people == [] {
    } else {
      var n := |people| - 1;
      MembersCount(people[..n], g, c, p);
      assert people == people[..n] + [people[n]];
    }
  }

  /** Every unblocked person is in the list of their group, as often as given, and
      in no other; a blocked person is in none; each list is in its order. */
  lemma ListedExactly(people: seq<Person>, g: Group, c: Context, p: Person)
    ensures multiset(Listed(people, g, c))[p] == if !p.blocked && GroupOf(p, c) == g then multiset(people)[p] else 0
    ensures Ordered(Listed(people, g, c), KeyIn(g, c))
  {
    hide Ordered;
    MembersCount(people, g, c, p);
    SortBySorts(Members(people, g, c), KeyIn(g, c));
  }

  /** The oldest affected message, an unknown age counting as the newest. */
  function AgeMs(p: Person): int {
    if p.attentionSinceMs > 0 then p.attentionSinceMs else 0x7FFF_FFFF_FFFF_FFFF
  }

  /** By name without case, and by id where names agree. */
  predicate NamedInOrder(p: Person, q: Person, c: Context) {
    && !Below(c.lower(q.displayName), c.lower(p.displayName))
    && (c.lower(p.displayName) == c.lower(q.displayName) ==> !Below(q.userId, p.userId))
  }

  /** The documented order of each list. Needs attention: severity never rises, within
      one severity the older comes first and an unknown age last, then name. Reachable
      now: name. Other people: evidence never gets fresher, then name. Names that
      agree go by user id. */
  lemma DocumentedOrder(people: seq<Person>, g: Group, c: Context, i: nat, j: nat)
    requires i < j < |Listed(people, g, c)|
    ensures var p, q := Listed(people, g, c)[i], Listed(people, g, c)[j];
            && GroupOf(p, c) == g == GroupOf(q, c)
            && match g
               case NeedsAttention =>
                 && !Worse(q.attention.value, p.attention.value)
                 && (p.attention == q.attention ==> AgeMs(p) <= AgeMs(q))
                 && (p.attention == q.attention && AgeMs(p) == AgeMs(q) ==> NamedInOrder(p, q, c))
               case ReachableNow => NamedInOrder(p, q, c)
               case OtherPeople =>
                 && NewestEvidenceMs(p) >= NewestEvidenceMs(q)
                 && (NewestEvidenceMs(p) == NewestEvidenceMs(q) ==> NamedInOrder(p, q, c))
  {
    hide SortBy, Members, Below, PersonReach, AttentionRank, NewestEvidenceMs;
    var list := Listed(people, g, c);
    var p, q := list[i], list[j];
    assert p in multiset(list) && q in multiset(list);
    ListedExactly(people, g, c, p);
    ListedExactly(people, g, c, q);
    var first, second := KeyIn(g, c)(p), KeyIn(g, c)(q);
    assert !Before(second, first);
    match g
    case NeedsAttention =>
      RanksExactly(p.attention.value, q.attention.value);
      RanksExactly(q.attention.value, p.attention.value);
      assert first == Key(0 - AttentionRank(p.attention.value), AgeMs(p), c.lower(p.displayName), p.userId);
      assert second == Key(0 - AttentionRank(q.attention.value), AgeMs(q), c.lower(q.displayName), q.userId);
    case ReachableNow =>
      assert first == Key(0, 0, c.lower(p.displayName), p.userId);
    case OtherPeople =>
      assert first == Key(0 - NewestEvidenceMs(p), 0, c.lower(p.displayName), p.userId);
  }

  /** A user id names one person. */
  ghost predicate IdsApart(people: multiset<Person>) {
    forall a, b :: a in people && b in people && a.userId == b.userId ==> a == b
  }

  lemma ListedIgnoresOrder(people: seq<Person>, others: seq<Person>, g: Group, c: Context)
    requires multiset(people) == multiset(others) && IdsApart(multiset(people))
    ensures Listed(people, g, c) == Listed(others, g, c)
  {
    hide Ordered, SortBy, Members, Before;
    var key, xs, ys := KeyIn(g, c), Members(people, g, c), Members(others, g, c);
    forall p: Person ensures multiset(xs)[p] == multiset(ys)[p] && (p in multiset(xs) ==> p in multiset(people)) {
      MembersCount(people, g, c, p);
      MembersCount(others, g, c, p);
    }
    assert multiset(xs) == multiset(ys);
    SortBySorts(xs, key);
    SortBySorts(ys, key);
    forall a, b | a in multiset(xs) && b in multiset(xs) && key(a) == key(b) ensures a == b {
      assert a.userId == key(a).id && b.userId == key(b).id;
    }
    OrderedUnique(SortBy(xs, key), SortBy(ys, key), key);
  }

  /** The page is the same for every order the people are given in. */
  lemma GroupingIgnoresOrder(people: seq<Person>, others: seq<Person>, c: Context)
    requires multiset(people) == multiset(others) && IdsApart(multiset(people))
    ensures Grouped(people, c) == Grouped(others, c)
  {
    hide Listed;
    ListedIgnoresOrder(people, others, NeedsAttention, c);
    ListedIgnoresOrder(people, others, ReachableNow, c);
    ListedIgnoresOrder(people, others, OtherPeople, c);
  }
}
