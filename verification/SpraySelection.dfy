/** The pairwise lane of the digest spray (core/src/engine.rs:692-714, 829-915;
    core/src/store.rs:8213-8262): a greedy selection under a byte budget, fed by a
    per-contact fetch that stops when the budget is spent, with hidden kinds the
    peer cannot acknowledge offered once a session. */
module SpraySelection {
  import opened Bytes

  type UserId = nat
  type MsgId = nat

  datatype Envelope = Envelope(msgId: MsgId, kind: byte, expiry: int, sealedLen: nat)

  const HIDDEN_SPRAY_KINDS: set<byte> := {3, 5, 6, 7, 9, 21}
  const U64_MAX := 0xFFFF_FFFF_FFFF_FFFF

  function SaturatingAdd(a: u64, b: u64): u64 {
    if a + b > U64_MAX then U64_MAX else a + b
  }

  function Size(es: seq<Envelope>): nat {
    if es == [] then 0 else es[0].sealedLen + Size(es[1..])
  }

  function Filter(p: Envelope -> bool, es: seq<Envelope>): (r: seq<Envelope>)
    ensures Size(r) <= Size(es)
    ensures forall e :: e in r ==> p(e) && e in es
  {
    if es == [] then []
    else
      var rest := Filter(p, es[1..]);
      assert ([es[0]] + rest)[1..] == rest;
      if p(es[0]) then [es[0]] + rest else rest
  }

  function Flatten(ess: seq<seq<Envelope>>): seq<Envelope> {
    if ess == [] then [] else ess[0] + Flatten(ess[1..])
  }

  predicate Eligible(known: set<MsgId>, now: int, e: Envelope) {
    e.expiry > now && e.msgId !in known
  }

  /** The longest prefix that fits the budget, taken greedily. */
  function Affordable(es: seq<Envelope>, budget: nat): (r: seq<Envelope>)
    ensures r <= es && Size(r) <= budget
  {
    if es == [] || es[0].sealedLen > budget then []
    else
      var rest := Affordable(es[1..], budget - es[0].sealedLen);
      assert ([es[0]] + rest)[1..] == rest;
      [es[0]] + rest
  }

  /** No longer prefix fits. */
  lemma {:induction false} AffordableIsLongest(es: seq<Envelope>, budget: nat, k: nat)
    requires k <= |es|
    ensures Size(es[..k]) <= budget ==> k <= |Affordable(es, budget)|
  {
    if k == 0 {
    } else if es[0].sealedLen > budget {
      assert es[..k][0] == es[0];
    } else {
      AffordableIsLongest(es[1..], budget - es[0].sealedLen, k - 1);
      assert es[..k][1..] == es[1..][..k - 1];
    }
  }

  lemma {:induction false} SizeConcat(a: seq<Envelope>, b: seq<Envelope>)
    ensures Size(a + b) == Size(a) + Size(b)
  {
    if a == [] { assert a + b == b; } else {
      SizeConcat(a[1..], b);
      assert (a + b)[1..] == a[1..] + b;
    }
  }

  lemma {:induction false} FilterConcat(p: Envelope -> bool, a: seq<Envelope>, b: seq<Envelope>)
    ensures Filter(p, a + b) == Filter(p, a) + Filter(p, b)
  {
    if a == [] { assert a + b == b; } else {
      FilterConcat(p, a[1..], b);
      assert (a + b)[1..] == a[1..] + b;
      Reassociate([a[0]], Filter(p, a[1..]), Filter(p, b));
    }
  }

  lemma Reassociate(a: seq<Envelope>, b: seq<Envelope>, c: seq<Envelope>)
    ensures (a + b) + c == a + (b + c)
  {
  }

  predicate AllPass(p: Envelope -> bool, es: seq<Envelope>) {
    forall i :: 0 <= i < |es| ==> p(es[i])
  }

  lemma AllPassSplits(p: Envelope -> bool, a: seq<Envelope>, b: seq<Envelope>)
    ensures AllPass(p, a + b) <==> AllPass(p, a) && AllPass(p, b)
  {
    assert forall i :: 0 <= i < |a| ==> (a + b)[i] == a[i];
    assert forall i :: 0 <= i < |b| ==> (a + b)[|a| + i] == b[i];
  }

  lemma {:induction false} FilterKeepsAll(p: Envelope -> bool, es: seq<Envelope>)
    requires AllPass(p, es)
    ensures Filter(p, es) == es
  {
    if es == [] {
    } else {
      FilterKeepsAll(p, es[1..]);
    }
  }

  lemma ConsUnfolds(e: Envelope, rest: seq<Envelope>, budget: nat)
    ensures Size([e] + rest) == e.sealedLen + Size(rest)
    ensures Affordable([e] + rest, budget)
         == if e.sealedLen > budget then [] else [e] + Affordable(rest, budget - e.sealedLen)
  {
    assert ([e] + rest)[1..] == rest;
  }

  /** A front that fits is taken whole; the rest gets what it leaves. */
  lemma {:induction false} AffordableConcat(a: seq<Envelope>, b: seq<Envelope>, budget: nat)
    requires Size(a) <= budget
    ensures Affordable(a + b, budget) == a + Affordable(b, budget - Size(a))
  {
    hide Affordable, Size;
    NothingTaken(budget);
    if a == [] {
      assert a + b == b && [] + Affordable(b, budget) == Affordable(b, budget);
    } else {
      var e, rest := a[0], a[1..];
      assert a == [e] + rest;
      ConsUnfolds(e, rest, budget);
      ConsUnfolds(e, rest + b, budget);
      Reassociate([e], rest, b);
      AffordableConcat(rest, b, budget - e.sealedLen);
      Reassociate([e], rest, Affordable(b, budget - Size(a)));
    }
  }

  lemma NothingTaken(budget: nat)
    ensures Size([]) == 0 && Affordable([], budget) == []
  {
  }

  // ---- The selection loop ----

  lemma FilterCons(p: Envelope -> bool, e: Envelope, rest: seq<Envelope>)
    ensures Filter(p, [e] + rest) == if p(e) then [e] + Filter(p, rest) else Filter(p, rest)
  {
    assert ([e] + rest)[1..] == rest;
  }

  /** The state of a selection loop before the eligible rows `rest`. */
  ghost predicate Selecting(
      rest: seq<Envelope>, selected: seq<Envelope>, used: nat, budget: nat, whole: seq<Envelope>)
  {
    used <= budget && used + Size(rest) <= U64_MAX && selected + Affordable(rest, budget - used) == whole
  }

  lemma SelectingSteps(
      e: Envelope, rest: seq<Envelope>, selected: seq<Envelope>, used: nat, budget: nat, whole: seq<Envelope>)
    requires Selecting([e] + rest, selected, used, budget, whole)
    ensures used + e.sealedLen <= U64_MAX
    ensures used + e.sealedLen > budget ==> selected == whole
    ensures used + e.sealedLen <= budget ==> Selecting(rest, selected + [e], used + e.sealedLen, budget, whole)
  {
    hide Affordable, Size;
    var left := budget - used;
    ConsUnfolds(e, rest, left);
    if e.sealedLen <= left {
      Reassociate(selected, [e], Affordable(rest, left - e.sealedLen));
    } else {
      assert selected + [] == selected;
    }
  }

  lemma SelectingEnds(selected: seq<Envelope>, used: nat, budget: nat, whole: seq<Envelope>)
    requires Selecting([], selected, used, budget, whole)
    ensures selected == whole
  {
    assert selected + [] == selected;
  }

  lemma SelectingStarts(rows: seq<Envelope>, budget: nat)
    requires Size(rows) <= U64_MAX
    ensures Selecting(rows, [], 0, budget, Affordable(rows, budget))
  {
    assert [] + Affordable(rows, budget) == Affordable(rows, budget);
  }

  function EligibleFor(known: set<MsgId>, now: int): Envelope -> bool {
    e => Eligible(known, now, e)
  }

  /** The inner loop of `select_own_outbound`: one recipient's rows, before `rest`. */
  method SelectRecipient(
      rows: seq<Envelope>, known: set<MsgId>, now: int, budget: u64, selected0: seq<Envelope>, used0: u64,
      ghost rest: seq<Envelope>, ghost whole: seq<Envelope>)
    returns (selected: seq<Envelope>, used: u64, full: bool)
    requires Selecting(Filter(EligibleFor(known, now), rows) + rest, selected0, used0, budget, whole)
    ensures full ==> selected == whole
    ensures !full ==> Selecting(rest, selected, used, budget, whole)
  {
    ghost var p := EligibleFor(known, now);
    selected, used := selected0, used0;
    assert rows[0..] == rows;
    for j := 0 to |rows|
      invariant Selecting(Filter(p, rows[j..]) + rest, selected, used, budget, whole)
    {
      hide Affordable, Filter, Size, Selecting;
      var e := rows[j];
      ghost var more := Filter(p, rows[j + 1..]);
      assert rows[j..] == [e] + rows[j + 1..];
      FilterCons(p, e, rows[j + 1..]);
      if e.expiry <= now || e.msgId in known { continue; }
      Reassociate([e], more, rest);
      SelectingSteps(e, more + rest, selected, used, budget, whole);
      if SaturatingAdd(used, e.sealedLen) > budget { return selected, used, true; }
      used := used + e.sealedLen;
      selected := selected + [e];
    }
    full := false;
    assert rows[|rows|..] == [];
    assert Filter(p, []) + rest == rest;
  }

  /** `select_own_outbound`. The bytes pending fit in memory, so no sum saturates. */
  method SelectOwnOutbound(pending: seq<seq<Envelope>>, known: set<MsgId>, now: int, budget: u64)
    returns (selected: seq<Envelope>)
    requires Size(Flatten(pending)) <= U64_MAX
    ensures selected == Affordable(Filter(EligibleFor(known, now), Flatten(pending)), budget)
  {
    ghost var p := EligibleFor(known, now);
    ghost var whole := Affordable(Filter(p, Flatten(pending)), budget);
    selected := [];
    var used: u64 := 0;
    SelectingStarts(Filter(p, Flatten(pending)), budget);
    assert pending[0..] == pending;
    for i := 0 to |pending|
      invariant Selecting(Filter(p, Flatten(pending[i..])), selected, used, budget, whole)
    {
      hide Affordable, Filter, Size, Selecting;
      ghost var rest := Flatten(pending[i + 1..]);
      assert pending[i..][1..] == pending[i + 1..];
      FilterConcat(p, pending[i], rest);
      var full;
      selected, used, full := SelectRecipient(pending[i], known, now, budget, selected, used, Filter(p, rest), whole);
      if full { return; }
    }
    assert pending[|pending|..] == [];
    SelectingEnds(selected, used, budget, whole);
  }

  // ---- The fetch, and the plan ----

  /** A contact's rows beyond its delivered watermark, oldest first. */
  datatype Contact = Contact(userId: UserId, rows: seq<Envelope>)

  /** What the shell asks of one round. */
  datatype Round = Round(
    peer: UserId, contacts: seq<Contact>, known: set<MsgId>, now: int, budget: u64, ackedKinds: set<byte>)

  /** Hidden rows of a kind this peer's watermark cannot be trusted to pass. */
  predicate Bounded(r: Round, e: Envelope) {
    e.kind in HIDDEN_SPRAY_KINDS && e.kind !in r.ackedKinds
  }

  predicate Kept(r: Round, offered: set<MsgId>, e: Envelope) {
    !(Bounded(r, e) && e.msgId in offered)
  }

  function BoundedFor(r: Round): Envelope -> bool {
    e => Bounded(r, e)
  }

  function KeptFor(r: Round, offered: set<MsgId>): Envelope -> bool {
    e => Kept(r, offered, e)
  }

  /** What each contact other than the peer has to offer. */
  function Backlogs(r: Round, contacts: seq<Contact>): seq<seq<Envelope>> {
    if contacts == [] then []
    else (if contacts[0].userId == r.peer then []
          else [Filter(EligibleFor(r.known, r.now), contacts[0].rows)]) + Backlogs(r, contacts[1..])
  }

  /** What the fetch loop gathers: each backlog's affordable prefix without its
      dropped rows, until one backlog does not fit whole. */
  function Gathered(keep: Envelope -> bool, backlogs: seq<seq<Envelope>>, remaining: nat): seq<Envelope>
    decreases |backlogs|
  {
    if backlogs == [] then []
    else
      var fetched := Affordable(backlogs[0], remaining);
      var kept := Filter(keep, fetched);
      if fetched != backlogs[0] then kept
      else kept + Gathered(keep, backlogs[1..], remaining - Size(kept))
  }

  lemma {:induction false} GatheredFits(keep: Envelope -> bool, backlogs: seq<seq<Envelope>>, remaining: nat)
    ensures Size(Gathered(keep, backlogs, remaining)) <= remaining
    decreases |backlogs|
  {
    hide Affordable, Filter;
    if backlogs == [] || Affordable(backlogs[0], remaining) != backlogs[0] {
    } else {
      var kept := Filter(keep, backlogs[0]);
      GatheredFits(keep, backlogs[1..], remaining - Size(kept));
      SizeConcat(kept, Gathered(keep, backlogs[1..], remaining - Size(kept)));
    }
  }

  /** What the budget would allow of everything kept, had all of it been fetched. */
  function Ideal(keep: Envelope -> bool, backlogs: seq<seq<Envelope>>, budget: nat): seq<Envelope> {
    Affordable(Filter(keep, Flatten(backlogs)), budget)
  }

  /** At the backlog where fetching stops, the next kept row would not have fitted
      beside the kept rows either. */
  predicate StopsTight(keep: Envelope -> bool, backlogs: seq<seq<Envelope>>, remaining: nat)
    decreases |backlogs|
  {
    if backlogs == [] then true
    else
      var fetched := Affordable(backlogs[0], remaining);
      var kept := Filter(keep, fetched);
      if fetched == backlogs[0] then StopsTight(keep, backlogs[1..], remaining - Size(kept))
      else NextTooBig(Unfetched(keep, backlogs, fetched), remaining - Size(kept))
  }

  /** The kept rows after those fetched. */
  function Unfetched(keep: Envelope -> bool, backlogs: seq<seq<Envelope>>, fetched: seq<Envelope>): seq<Envelope>
    requires backlogs != [] && fetched <= backlogs[0]
  {
    Filter(keep, backlogs[0][|fetched|..] + Flatten(backlogs[1..]))
  }

  predicate NextTooBig(next: seq<Envelope>, left: nat) {
    next == [] || next[0].sealedLen > left
  }

  lemma CutBacklog(keep: Envelope -> bool, backlogs: seq<seq<Envelope>>, remaining: nat)
    requires backlogs != []
    ensures var fetched := Affordable(backlogs[0], remaining);
            var kept := Filter(keep, fetched);
            Ideal(keep, backlogs, remaining)
            == kept + Affordable(Unfetched(keep, backlogs, fetched), remaining - Size(kept))
  {
    hide Affordable, Filter;
    var fetched := Affordable(backlogs[0], remaining);
    var rest := backlogs[0][|fetched|..] + Flatten(backlogs[1..]);
    assert Flatten(backlogs) == fetched + rest;
    FilterConcat(keep, fetched, rest);
    AffordableConcat(Filter(keep, fetched), Filter(keep, rest), remaining);
  }

  lemma TooBigTakesNothing(next: seq<Envelope>, left: nat)
    ensures NextTooBig(next, left) <==> Affordable(next, left) == []
  {
  }

  /** One backlog: what is gathered, the ideal and the test, from the rest. */
  lemma GatherUnfolds(keep: Envelope -> bool, backlogs: seq<seq<Envelope>>, remaining: nat)
    requires backlogs != []
    ensures var fetched := Affordable(backlogs[0], remaining);
            var kept := Filter(keep, fetched);
            var left := remaining - Size(kept);
            if fetched == backlogs[0] then
              && Gathered(keep, backlogs, remaining) == kept + Gathered(keep, backlogs[1..], left)
              && Ideal(keep, backlogs, remaining) == kept + Ideal(keep, backlogs[1..], left)
              && StopsTight(keep, backlogs, remaining) == StopsTight(keep, backlogs[1..], left)
            else
              var beyond := Affordable(Unfetched(keep, backlogs, fetched), left);
              && Gathered(keep, backlogs, remaining) == kept + []
              && Ideal(keep, backlogs, remaining) == kept + beyond
              && StopsTight(keep, backlogs, remaining) == (beyond == [])
  {
    hide Affordable, Filter, NextTooBig, Size;
    CutBacklog(keep, backlogs, remaining);
    var fetched := Affordable(backlogs[0], remaining);
    var kept := Filter(keep, fetched);
    if fetched == backlogs[0] {
      assert backlogs[0][|fetched|..] + Flatten(backlogs[1..]) == Flatten(backlogs[1..]);
    } else {
      TooBigTakesNothing(Unfetched(keep, backlogs, fetched), remaining - Size(kept));
      assert kept + [] == kept;
    }
  }

  /** `a` is a prefix of `b`, and all of it exactly when `whole`. */
  ghost predicate PrefixWhole(a: seq<Envelope>, b: seq<Envelope>, whole: bool) {
    a <= b && (a == b <==> whole)
  }

  lemma PrefixWholeBehind(front: seq<Envelope>, a: seq<Envelope>, b: seq<Envelope>, whole: bool)
    requires PrefixWhole(a, b, whole)
    ensures PrefixWhole(front + a, front + b, whole)
  {
    if front + a == front + b {
      assert a == (front + a)[|front|..] == (front + b)[|front|..] == b;
    }
  }

  /** Fetching under the budget gives a prefix of the ideal selection, and all of
      it exactly when it stops tight. */
  lemma {:induction false} GatheredAgainstIdeal(keep: Envelope -> bool, backlogs: seq<seq<Envelope>>, remaining: nat)
    ensures PrefixWhole(Gathered(keep, backlogs, remaining), Ideal(keep, backlogs, remaining),
                        StopsTight(keep, backlogs, remaining))
    decreases |backlogs|
  {
    hide Affordable, Filter, Size, Gathered, Ideal, StopsTight, Unfetched, Flatten, PrefixWhole;
    if backlogs == [] {
      NoBacklogs(keep, remaining);
    } else {
      GatherUnfolds(keep, backlogs, remaining);
      var fetched := Affordable(backlogs[0], remaining);
      var kept := Filter(keep, fetched);
      var left := remaining - Size(kept);
      if fetched == backlogs[0] {
        GatheredAgainstIdeal(keep, backlogs[1..], left);
        PrefixWholeBehind(kept, Gathered(keep, backlogs[1..], left), Ideal(keep, backlogs[1..], left),
                          StopsTight(keep, backlogs[1..], left));
      } else {
        var beyond := Affordable(Unfetched(keep, backlogs, fetched), left);
        EmptyPrefix(beyond);
        PrefixWholeBehind(kept, [], beyond, beyond == []);
      }
    }
  }

  lemma NoBacklogs(keep: Envelope -> bool, remaining: nat)
    ensures PrefixWhole(Gathered(keep, [], remaining), Ideal(keep, [], remaining), StopsTight(keep, [], remaining))
  {
    assert Ideal(keep, [], remaining) == [];
  }

  lemma EmptyPrefix(b: seq<Envelope>)
    ensures PrefixWhole([], b, b == [])
  {
  }

  lemma {:induction false} NothingDroppedIsTight(keep: Envelope -> bool, backlogs: seq<seq<Envelope>>, remaining: nat)
    requires AllPass(keep, Flatten(backlogs))
    ensures StopsTight(keep, backlogs, remaining)
    decreases |backlogs|
  {
    if backlogs == [] {
    } else {
      hide Affordable, Filter, Size, AllPass;
      var fetched := Affordable(backlogs[0], remaining);
      var rest := backlogs[0][|fetched|..] + Flatten(backlogs[1..]);
      assert Flatten(backlogs) == fetched + rest;
      AllPassSplits(keep, fetched, rest);
      AllPassSplits(keep, backlogs[0][|fetched|..], Flatten(backlogs[1..]));
      FilterKeepsAll(keep, fetched);
      if fetched == backlogs[0] {
        NothingDroppedIsTight(keep, backlogs[1..], remaining - Size(fetched));
      } else {
        FilterKeepsAll(keep, rest);
        NextRowTooBig(backlogs[0], remaining);
      }
    }
  }

  lemma NextRowTooBig(es: seq<Envelope>, budget: nat)
    requires Affordable(es, budget) != es
    ensures var fetched := Affordable(es, budget);
            |fetched| < |es| && es[|fetched|].sealedLen > budget - Size(fetched)
  {
    var fetched := Affordable(es, budget);
    AffordableIsLongest(es, budget, |fetched| + 1);
    hide Affordable;
    assert es[..|fetched| + 1] == fetched + [es[|fetched|]];
    SizeConcat(fetched, [es[|fetched|]]);
  }

  /** The pairwise lane of one round's plan, and the ids it reports as offered. */
  function Plan(r: Round, offered: set<MsgId>): seq<Envelope> {
    Gathered(KeptFor(r, offered), Backlogs(r, r.contacts), r.budget)
  }

  function Ids(es: seq<Envelope>): seq<MsgId> {
    seq(|es|, i requires 0 <= i < |es| => es[i].msgId)
  }

  function Reported(r: Round, offered: set<MsgId>): seq<MsgId> {
    Ids(Filter(BoundedFor(r), Plan(r, offered)))
  }

  /** The incremental fetch selects what fetching everything would, exactly when it
      stops tight; in particular whenever the hidden-kind filter drops nothing. */
  lemma PlanAgainstIdeal(r: Round, offered: set<MsgId>)
    ensures var keep := KeptFor(r, offered);
            var backlogs := Backlogs(r, r.contacts);
            && Plan(r, offered) <= Ideal(keep, backlogs, r.budget)
            && (Plan(r, offered) == Ideal(keep, backlogs, r.budget) <==> StopsTight(keep, backlogs, r.budget))
            && (AllPass(keep, Flatten(backlogs)) ==> Plan(r, offered) == Affordable(Flatten(backlogs), r.budget))
  {
    var keep := KeptFor(r, offered);
    var backlogs := Backlogs(r, r.contacts);
    GatheredAgainstIdeal(keep, backlogs, r.budget);
    if AllPass(keep, Flatten(backlogs)) {
      NothingDroppedIsTight(keep, backlogs, r.budget);
      FilterKeepsAll(keep, Flatten(backlogs));
    }
  }

  /** Rows already offered still spend the fetch: one too big for the budget hides
      every row behind it, though it would itself be dropped. */
  lemma OfferedRowStarvesOthers()
    ensures var hidden, text := Envelope(1, 3, 9, 10), Envelope(2, 1, 9, 3);
            var r := Round(7, [Contact(8, [hidden]), Contact(9, [text])], {}, 0, 5, {});
            Plan(r, {1}) == [] && Ideal(KeptFor(r, {1}), Backlogs(r, r.contacts), r.budget) == [text]
  {
    var hidden, text := Envelope(1, 3, 9, 10), Envelope(2, 1, 9, 3);
    var r := Round(7, [Contact(8, [hidden]), Contact(9, [text])], {}, 0, 5, {});
    var keep := KeptFor(r, {1});
    var eligible := EligibleFor(r.known, r.now);
    assert r.contacts[1..] == [Contact(9, [text])] && r.contacts[1..][1..] == [];
    assert Filter(eligible, [hidden]) == [hidden] && Filter(eligible, [text]) == [text];
    assert Backlogs(r, r.contacts[1..]) == [[text]];
    var backlogs := Backlogs(r, r.contacts);
    assert backlogs == [[hidden], [text]];
    assert Affordable([hidden], 5) == [];
    assert backlogs[1..] == [[text]] && Flatten(backlogs[1..]) == [text];
    assert Flatten(backlogs) == [hidden, text];
    assert [hidden, text][1..] == [text];
    assert Filter(keep, [text]) == [text];
    assert Filter(keep, [hidden, text]) == [text];
  }

  // ---- The code as it runs ----

  /** `outbound_envelopes_after_budgeted`, over the rows its query selects. */
  method FetchBudgeted(rows: seq<Envelope>, known: set<MsgId>, now: int, budget: u64)
    returns (selected: seq<Envelope>, exhausted: bool)
    requires Size(rows) <= U64_MAX
    ensures var eligible := Filter(EligibleFor(known, now), rows);
            selected == Affordable(eligible, budget) && (exhausted <==> selected != eligible)
  {
    selected, exhausted := TakeAffordable(Filter(EligibleFor(known, now), rows), budget);
  }

  /** Its loop: rows are taken until one does not fit. */
  method TakeAffordable(eligible: seq<Envelope>, budget: u64) returns (selected: seq<Envelope>, exhausted: bool)
    requires Size(eligible) <= U64_MAX
    ensures selected == Affordable(eligible, budget) && (exhausted <==> selected != eligible)
  {
    hide Affordable, Size, Selecting;
    selected := [];
    exhausted := false;
    var used: u64 := 0;
    ghost var whole := Affordable(eligible, budget);
    SelectingStarts(eligible, budget);
    assert eligible[0..] == eligible;
    for i := 0 to |eligible|
      invariant selected == eligible[..i] && used <= budget
      invariant Selecting(eligible[i..], selected, used, budget, whole)
    {
      var e := eligible[i];
      assert eligible[i..] == [e] + eligible[i + 1..];
      SelectingSteps(e, eligible[i + 1..], selected, used, budget, whole);
      if SaturatingAdd(used, e.sealedLen) > budget {
        exhausted := true;
        return;
      }
      used := used + e.sealedLen;
      selected := selected + [e];
    }
    assert eligible[|eligible|..] == [];
    SelectingEnds(selected, used, budget, whole);
  }

  lemma {:induction false} FlattenSnoc(ess: seq<seq<Envelope>>, es: seq<Envelope>)
    ensures Flatten(ess + [es]) == Flatten(ess) + es
  {
    if ess == [] {
      assert ess + [es] == [es] && [es][1..] == [];
    } else {
      FlattenSnoc(ess[1..], es);
      assert (ess + [es])[1..] == ess[1..] + [es];
      Reassociate(ess[0], Flatten(ess[1..]), es);
    }
  }

  lemma {:induction false} FilterPasses(q: Envelope -> bool, p: Envelope -> bool, es: seq<Envelope>)
    requires AllPass(q, es)
    ensures AllPass(q, Filter(p, es))
  {
    if es == [] {
    } else {
      FilterPasses(q, p, es[1..]);
    }
  }

  /** Everything gathered comes from the backlogs. */
  lemma {:induction false} GatheredPasses(
      q: Envelope -> bool, keep: Envelope -> bool, backlogs: seq<seq<Envelope>>, remaining: nat)
    requires AllPass(q, Flatten(backlogs))
    ensures AllPass(q, Gathered(keep, backlogs, remaining))
    decreases |backlogs|
  {
    if backlogs == [] {
    } else {
      var fetched := Affordable(backlogs[0], remaining);
      hide Affordable, Filter, Size, AllPass;
      AllPassSplits(q, backlogs[0], Flatten(backlogs[1..]));
      assert backlogs[0] == fetched + backlogs[0][|fetched|..];
      AllPassSplits(q, fetched, backlogs[0][|fetched|..]);
      FilterPasses(q, keep, fetched);
      var kept := Filter(keep, fetched);
      if fetched == backlogs[0] {
        GatheredPasses(q, keep, backlogs[1..], remaining - Size(kept));
        AllPassSplits(q, kept, Gathered(keep, backlogs[1..], remaining - Size(kept)));
      }
    }
  }

  lemma {:induction false} BacklogsEligible(r: Round, contacts: seq<Contact>)
    ensures AllPass(EligibleFor(r.known, r.now), Flatten(Backlogs(r, contacts)))
  {
    if contacts == [] {
    } else {
      var q := EligibleFor(r.known, r.now);
      BacklogsEligible(r, contacts[1..]);
      var rest := Backlogs(r, contacts[1..]);
      if contacts[0].userId != r.peer {
        var es := Filter(q, contacts[0].rows);
        assert AllPass(q, es) by { assert forall i :: 0 <= i < |es| ==> es[i] in es; }
        assert ([es] + rest)[1..] == rest;
        AllPassSplits(q, es, Flatten(rest));
      } else {
        assert [] + rest == rest;
      }
    }
  }

  /** The final selection never evicts: what was gathered is eligible and fits. */
  lemma ReselectionIsIdentity(r: Round, offered: set<MsgId>)
    ensures Affordable(Filter(EligibleFor(r.known, r.now), Plan(r, offered)), r.budget) == Plan(r, offered)
  {
    var q := EligibleFor(r.known, r.now);
    var keep := KeptFor(r, offered);
    var backlogs := Backlogs(r, r.contacts);
    BacklogsEligible(r, r.contacts);
    GatheredPasses(q, keep, backlogs, r.budget);
    GatheredFits(keep, backlogs, r.budget);
    var plan := Plan(r, offered);
    FilterKeepsAll(q, plan);
    hide Filter, Gathered, Backlogs;
    AffordableConcat(plan, [], r.budget);
    assert plan + [] == plan;
    assert Affordable([], r.budget - Size(plan)) == [];
  }

  lemma FilterSnoc(p: Envelope -> bool, es: seq<Envelope>, e: Envelope)
    ensures Filter(p, es + [e]) == if p(e) then Filter(p, es) + [e] else Filter(p, es)
  {
    FilterConcat(p, es, [e]);
    assert Filter(p, [e]) == if p(e) then [e] else [];
  }

  lemma IdsSnoc(es: seq<Envelope>, e: Envelope)
    ensures Ids(es + [e]) == Ids(es) + [e.msgId]
  {
  }

  /** The hidden-kind filter over one contact's fetched rows: what stays, and the
      ids newly noted as offered. */
  method FilterHidden(r: Round, offered: set<MsgId>, fetched: seq<Envelope>)
    returns (kept: seq<Envelope>, noted: seq<MsgId>)
    ensures kept == Filter(KeptFor(r, offered), fetched)
    ensures noted == Ids(Filter(BoundedFor(r), kept))
  {
    ghost var keep, bounded := KeptFor(r, offered), BoundedFor(r);
    kept, noted := [], [];
    FlattenEmpty(r);
    assert fetched[..0] == [] && Filter(keep, []) == [];
    hide Filter, Ids;
    for i := 0 to |fetched|
      invariant kept == Filter(keep, fetched[..i])
      invariant noted == Ids(Filter(bounded, kept))
    {
      var e := fetched[i];
      assert fetched[..i + 1] == fetched[..i] + [e];
      FilterSnoc(keep, fetched[..i], e);
      FilterSnoc(bounded, kept, e);
      IdsSnoc(Filter(bounded, kept), e);
      if e.kind in r.ackedKinds || e.kind !in HIDDEN_SPRAY_KINDS {
        kept := kept + [e];
      } else if e.msgId !in offered {
        noted := noted + [e.msgId];
        kept := kept + [e];
      }
    }
    assert fetched[..|fetched|] == fetched;
  }

  /** The budget left once rows are paid for, saturating at zero. */
  method Spend(remaining: u64, es: seq<Envelope>) returns (left: u64)
    ensures left == if Size(es) <= remaining then remaining - Size(es) else 0
  {
    left := remaining;
    assert es[0..] == es;
    for i := 0 to |es|
      invariant (if Size(es[i..]) <= left then left - Size(es[i..]) else 0)
             == (if Size(es) <= remaining then remaining - Size(es) else 0)
    {
      assert es[i..][1..] == es[i + 1..];
      left := if left < es[i].sealedLen then 0 else left - es[i].sealedLen;
    }
    assert es[|es|..] == [];
  }

  function Retain(ids: seq<MsgId>, chosen: set<MsgId>): seq<MsgId> {
    if ids == [] then []
    else
      var n := |ids| - 1;
      Retain(ids[..n], chosen) + if ids[n] in chosen then [ids[n]] else []
  }

  lemma {:induction false} RetainsAll(ids: seq<MsgId>, chosen: set<MsgId>)
    requires forall i :: 0 <= i < |ids| ==> ids[i] in chosen
    ensures Retain(ids, chosen) == ids
  {
    if ids == [] {
    } else {
      var n := |ids| - 1;
      RetainsAll(ids[..n], chosen);
      assert ids == ids[..n] + [ids[n]];
    }
  }

  lemma NotedStays(r: Round, plan: seq<Envelope>)
    ensures Retain(Ids(Filter(BoundedFor(r), plan)), set e | e in plan :: e.msgId) == Ids(Filter(BoundedFor(r), plan))
  {
    var es := Filter(BoundedFor(r), plan);
    forall i | 0 <= i < |es| ensures Ids(es)[i] in (set e | e in plan :: e.msgId) {
      assert es[i] in es;
    }
    RetainsAll(Ids(es), set e | e in plan :: e.msgId);
  }

  /** What has been gathered so far, and what the contacts from `k` would add. */
  ghost predicate Gathering(
      r: Round, offered: set<MsgId>, k: nat, done: seq<Envelope>, remaining: nat)
    requires k <= |r.contacts|
  {
    done + Gathered(KeptFor(r, offered), Backlogs(r, r.contacts[k..]), remaining) == Plan(r, offered)
  }

  lemma GatheringSteps(r: Round, offered: set<MsgId>, k: nat, done: seq<Envelope>, remaining: nat)
    requires k < |r.contacts| && Gathering(r, offered, k, done, remaining)
    ensures r.contacts[k].userId == r.peer ==> Gathering(r, offered, k + 1, done, remaining)
    ensures r.contacts[k].userId != r.peer ==>
              var backlog := Filter(EligibleFor(r.known, r.now), r.contacts[k].rows);
              var fetched := Affordable(backlog, remaining);
              var kept := Filter(KeptFor(r, offered), fetched);
              if fetched == backlog then Gathering(r, offered, k + 1, done + kept, remaining - Size(kept))
              else done + kept == Plan(r, offered)
  {
    hide Filter, Affordable, Size, Plan, Backlogs, Gathered;
    BacklogsCons(r, k);
    var rest := Backlogs(r, r.contacts[k + 1..]);
    if r.contacts[k].userId != r.peer {
      var backlog := Filter(EligibleFor(r.known, r.now), r.contacts[k].rows);
      var keep := KeptFor(r, offered);
      var kept := Filter(keep, Affordable(backlog, remaining));
      GatheredCons(keep, backlog, rest, remaining);
      if Affordable(backlog, remaining) == backlog {
        Reassociate(done, kept, Gathered(keep, rest, remaining - Size(kept)));
      }
    }
  }

  lemma BacklogsCons(r: Round, k: nat)
    requires k < |r.contacts|
    ensures var rest := Backlogs(r, r.contacts[k + 1..]);
            Backlogs(r, r.contacts[k..])
            == if r.contacts[k].userId == r.peer then rest
               else [Filter(EligibleFor(r.known, r.now), r.contacts[k].rows)] + rest
  {
    assert r.contacts[k..][1..] == r.contacts[k + 1..];
    assert [] + Backlogs(r, r.contacts[k + 1..]) == Backlogs(r, r.contacts[k + 1..]);
  }

  lemma GatheredCons(keep: Envelope -> bool, backlog: seq<Envelope>, rest: seq<seq<Envelope>>, remaining: nat)
    ensures var fetched := Affordable(backlog, remaining);
            var kept := Filter(keep, fetched);
            Gathered(keep, [backlog] + rest, remaining)
            == if fetched != backlog then kept else kept + Gathered(keep, rest, remaining - Size(kept))
  {
    assert ([backlog] + rest)[1..] == rest;
  }

  lemma GatheringEnds(r: Round, offered: set<MsgId>, done: seq<Envelope>, remaining: nat)
    ensures Gathering(r, offered, 0, [], r.budget)
    ensures Gathering(r, offered, |r.contacts|, done, remaining) ==> done == Plan(r, offered)
  {
    assert r.contacts[0..] == r.contacts && [] + Plan(r, offered) == Plan(r, offered);
    assert r.contacts[|r.contacts|..] == [] && done + [] == done;
  }

  lemma NotedGrows(r: Round, done: seq<Envelope>, kept: seq<Envelope>)
    ensures Ids(Filter(BoundedFor(r), done + kept))
         == Ids(Filter(BoundedFor(r), done)) + Ids(Filter(BoundedFor(r), kept))
  {
    FilterConcat(BoundedFor(r), done, kept);
  }

  /** The own-outbound part of `core_digest_spray_plan`. */
  method DigestSpray(r: Round, offered: set<MsgId>) returns (plan: seq<Envelope>, reported: seq<MsgId>)
    requires forall i :: 0 <= i < |r.contacts| ==> Size(r.contacts[i].rows) <= U64_MAX
    ensures plan == Plan(r, offered) && reported == Reported(r, offered)
  {
    hide Filter, Affordable, Size, Flatten, Backlogs, Gathering, Plan;
    var pending: seq<seq<Envelope>> := [];
    ghost var done: seq<Envelope> := [];
    var remaining: u64 := r.budget;
    reported := [];
    var k, exhausted := 0, false;
    GatheringEnds(r, offered, [], 0);
    FlattenEmpty(r);
    while k < |r.contacts| && !exhausted
      invariant k <= |r.contacts| && done == Flatten(pending)
      invariant reported == Ids(Filter(BoundedFor(r), done))
      invariant if exhausted then done == Plan(r, offered) else Gathering(r, offered, k, done, remaining)
      decreases |r.contacts| - k, !exhausted
    {
      var contact := r.contacts[k];
      GatheringSteps(r, offered, k, done, remaining);
      k := k + 1;
      if contact.userId == r.peer { continue; }
      var fetched;
      fetched, exhausted := FetchBudgeted(contact.rows, r.known, r.now, remaining);
      var kept, noted := FilterHidden(r, offered, fetched);
      NotedGrows(r, done, kept);
      reported := reported + noted;
      remaining := Spend(remaining, kept);
      FlattenSnoc(pending, kept);
      pending := pending + [kept];
      done := done + kept;
    }
    GatheringEnds(r, offered, done, remaining);
    PlanFits(r, offered);
    plan := SelectOwnOutbound(pending, r.known, r.now, r.budget);
    ReselectionIsIdentity(r, offered);
    NotedStays(r, plan);
    reported := Retain(reported, set e | e in plan :: e.msgId);
  }

  lemma FlattenEmpty(r: Round)
    ensures Flatten([]) == [] && Ids(Filter(BoundedFor(r), [])) == []
  {
  }

  lemma PlanFits(r: Round, offered: set<MsgId>)
    ensures Size(Plan(r, offered)) <= U64_MAX
  {
    GatheredFits(KeptFor(r, offered), Backlogs(r, r.contacts), r.budget);
  }

  // ---- What is sprayed, on the rows' own fields ----

  /** Eligible, bounded and kept, by expiry, known ids, kind and acknowledged kinds. */
  lemma RowsSpelled(r: Round, offered: set<MsgId>, e: Envelope)
    ensures Eligible(r.known, r.now, e) <==> r.now < e.expiry && e.msgId !in r.known
    ensures Bounded(r, e) <==>
      && (e.kind == 3 || e.kind == 5 || e.kind == 6 || e.kind == 7 || e.kind == 9 || e.kind == 21)
      && e.kind !in r.ackedKinds
    ensures Kept(r, offered, e) <==> !Bounded(r, e) || e.msgId !in offered
  {
  }

  /** A contact other than the peer has the row. */
  ghost predicate HasRow(contact: Contact, peer: UserId, e: Envelope) {
    contact.userId != peer && e in contact.rows
  }

  /** What is up for spraying: the unexpired rows, unknown to the peer, of every contact
      but the peer. */
  lemma {:induction false} BacklogRowsExactly(r: Round, contacts: seq<Contact>, e: Envelope)
    ensures e in Flatten(Backlogs(r, contacts)) <==>
      r.now < e.expiry && e.msgId !in r.known && exists contact :: contact in contacts && HasRow(contact, r.peer, e)
  {
    if contacts == [] {
    } else {
      BacklogRowsExactly(r, contacts[1..], e);
      var first, rest := contacts[0], Backlogs(r, contacts[1..]);
      var es := Filter(EligibleFor(r.known, r.now), first.rows);
      FilterMembers(EligibleFor(r.known, r.now), first.rows, e);
      assert ([es] + rest)[1..] == rest && [] + rest == rest;
      assert contacts == [first] + contacts[1..];
      assert (exists contact :: contact in contacts && HasRow(contact, r.peer, e)) <==>
        HasRow(first, r.peer, e) || exists contact :: contact in contacts[1..] && HasRow(contact, r.peer, e);
    }
  }

  lemma {:induction false} AffordableAll(es: seq<Envelope>, budget: nat)
    requires Size(es) <= budget
    ensures Affordable(es, budget) == es
  {
    if es == [] {
    } else {
      AffordableAll(es[1..], budget - es[0].sealedLen);
    }
  }

  /** With room for every backlog, everything kept is gathered. */
  lemma {:induction false} RoomForAll(keep: Envelope -> bool, backlogs: seq<seq<Envelope>>, remaining: nat)
    requires Size(Flatten(backlogs)) <= remaining
    ensures Gathered(keep, backlogs, remaining) == Filter(keep, Flatten(backlogs))
    decreases |backlogs|
  {
    hide Affordable, Size;
    if backlogs == [] {
    } else {
      hide Filter;
      SizeConcat(backlogs[0], Flatten(backlogs[1..]));
      AffordableAll(backlogs[0], remaining);
      FilterConcat(keep, backlogs[0], Flatten(backlogs[1..]));
      RoomForAll(keep, backlogs[1..], remaining - Size(Filter(keep, backlogs[0])));
    }
  }

  lemma {:induction false} GatheredFrom(
      keep: Envelope -> bool, backlogs: seq<seq<Envelope>>, remaining: nat, e: Envelope)
    requires e in Gathered(keep, backlogs, remaining)
    ensures e in Flatten(backlogs) && keep(e)
    decreases |backlogs|
  {
    var kept := Filter(keep, Affordable(backlogs[0], remaining));
    if e in kept {
    } else {
      GatheredFrom(keep, backlogs[1..], remaining - Size(kept), e);
    }
  }

  /** May go out: some contact but the peer has it, it is unexpired and unknown to the
      peer, and if it is a hidden kind the peer does not acknowledge, not offered yet. */
  ghost predicate MayGo(r: Round, offered: set<MsgId>, e: Envelope) {
    && (exists contact :: contact in r.contacts && HasRow(contact, r.peer, e))
    && r.now < e.expiry && e.msgId !in r.known
    && (e.kind in {3, 5, 6, 7, 9, 21} && e.kind !in r.ackedKinds ==> e.msgId !in offered)
  }

  /** Nothing else goes out, nor more than the budget; and with room for every backlog
      all of it does. */
  lemma SprayedExactly(r: Round, offered: set<MsgId>, e: Envelope)
    ensures e in Plan(r, offered) ==> MayGo(r, offered, e)
    ensures Size(Plan(r, offered)) <= r.budget
    ensures Size(Flatten(Backlogs(r, r.contacts))) <= r.budget ==> (e in Plan(r, offered) <==> MayGo(r, offered, e))
  {
    var keep, backlogs := KeptFor(r, offered), Backlogs(r, r.contacts);
    RowsSpelled(r, offered, e);
    BacklogRowsExactly(r, r.contacts, e);
    GatheredFits(keep, backlogs, r.budget);
    hide Gathered, Filter, Size, Flatten, Backlogs, Affordable, HasRow, Bounded;
    if e in Plan(r, offered) { GatheredFrom(keep, backlogs, r.budget, e); }
    if Size(Flatten(backlogs)) <= r.budget {
      RoomForAll(keep, backlogs, r.budget);
      FilterMembers(keep, Flatten(backlogs), e);
    }
  }

  // ---- A link session ----

  /** The ids fed back into the next round after these. */
  function OfferedAfter(rounds: seq<Round>): set<MsgId> {
    if rounds == [] then {}
    else
      var n := |rounds| - 1;
      var before := OfferedAfter(rounds[..n]);
      before + set m | m in Reported(rounds[n], before)
  }

  function SprayedIn(rounds: seq<Round>, i: nat): seq<Envelope>
    requires i < |rounds|
  {
    Plan(rounds[i], OfferedAfter(rounds[..i]))
  }

  /** Round `i` sprayed a bounded row with this id. */
  ghost predicate Offers(rounds: seq<Round>, i: nat, m: MsgId)
    requires i < |rounds|
  {
    exists e :: e in SprayedIn(rounds, i) && Bounded(rounds[i], e) && e.msgId == m
  }

  lemma OffersInPrefix(rounds: seq<Round>, n: nat, i: nat, m: MsgId)
    requires i < n <= |rounds|
    ensures Offers(rounds[..n], i, m) <==> Offers(rounds, i, m)
  {
    assert rounds[..n][..i] == rounds[..i] && rounds[..n][i] == rounds[i];
  }

  lemma OffersLast(rounds: seq<Round>, m: MsgId)
    requires rounds != []
    ensures var n := |rounds| - 1;
            Offers(rounds, n, m) <==> m in Reported(rounds[n], OfferedAfter(rounds[..n]))
  {
    var n := |rounds| - 1;
    ReportedExactly(rounds[n], OfferedAfter(rounds[..n]), m);
  }

  /** What is fed back is exactly what was sprayed of the bounded kinds: a row the
      budget left behind is not marked, and stays eligible. */
  lemma {:induction false} OfferedExactly(rounds: seq<Round>, m: MsgId)
    ensures m in OfferedAfter(rounds) <==> OfferedSomewhere(rounds, m)
  {
    if rounds == [] {
    } else {
      var n := |rounds| - 1;
      OfferedExactly(rounds[..n], m);
      OffersLast(rounds, m);
      hide Offers, Reported, SprayedIn, Plan;
      OfferedExtends(rounds, m);
      hide OfferedSomewhere;
    }
  }

  ghost predicate OfferedSomewhere(rounds: seq<Round>, m: MsgId) {
    exists i :: 0 <= i < |rounds| && Offers(rounds, i, m)
  }

  lemma OfferedExtends(rounds: seq<Round>, m: MsgId)
    requires rounds != []
    ensures var n := |rounds| - 1;
            OfferedSomewhere(rounds, m) <==> OfferedSomewhere(rounds[..n], m) || Offers(rounds, n, m)
  {
    hide Offers;
    var n := |rounds| - 1;
    if OfferedSomewhere(rounds, m) {
      var i :| 0 <= i < |rounds| && Offers(rounds, i, m);
      if i < n { OffersInPrefix(rounds, n, i, m); }
    }
    if OfferedSomewhere(rounds[..n], m) {
      var i :| 0 <= i < n && Offers(rounds[..n], i, m);
      OffersInPrefix(rounds, n, i, m);
    }
  }

  lemma {:induction false} FilterMembers(p: Envelope -> bool, es: seq<Envelope>, e: Envelope)
    ensures e in Filter(p, es) <==> e in es && p(e)
  {
    if es == [] {
    } else {
      FilterMembers(p, es[1..], e);
    }
  }

  lemma ReportedExactly(r: Round, offered: set<MsgId>, m: MsgId)
    ensures m in Reported(r, offered) <==> exists e :: e in Plan(r, offered) && Bounded(r, e) && e.msgId == m
  {
    var plan := Plan(r, offered);
    var es := Filter(BoundedFor(r), plan);
    if m in Reported(r, offered) {
      var i :| 0 <= i < |es| && Ids(es)[i] == m;
      assert es[i] in es;
    }
    forall e | e in plan && Bounded(r, e) && e.msgId == m ensures m in Reported(r, offered) {
      FilterMembers(BoundedFor(r), plan, e);
      var i :| 0 <= i < |es| && es[i] == e;
      assert Ids(es)[i] == m;
    }
  }

  /** Nothing the filter drops is sprayed. */
  lemma PlanKeeps(r: Round, offered: set<MsgId>, e: Envelope)
    requires e in Plan(r, offered)
    ensures Kept(r, offered, e)
  {
    GatheredKeeps(KeptFor(r, offered), Backlogs(r, r.contacts), r.budget, e);
  }

  lemma {:induction false} GatheredKeeps(
      keep: Envelope -> bool, backlogs: seq<seq<Envelope>>, remaining: nat, e: Envelope)
    requires e in Gathered(keep, backlogs, remaining)
    ensures keep(e)
    decreases |backlogs|
  {
    var kept := Filter(keep, Affordable(backlogs[0], remaining));
    if e in kept {
    } else {
      GatheredKeeps(keep, backlogs[1..], remaining - Size(kept), e);
    }
  }

  /** Over the rounds of one session, whatever the contacts, budgets and clocks of
      each, a hidden row of a kind the peer cannot acknowledge goes out at most
      once. */
  lemma SprayedOncePerSession(rounds: seq<Round>, i: nat, j: nat, e: Envelope, f: Envelope)
    requires i < j < |rounds|
    requires e in SprayedIn(rounds, i) && Bounded(rounds[i], e)
    requires f in SprayedIn(rounds, j) && Bounded(rounds[j], f)
    ensures e.msgId != f.msgId
  {
    OfferedExactly(rounds[..j], e.msgId);
    OffersInPrefix(rounds, j, i, e.msgId);
    assert Offers(rounds, i, e.msgId);
    PlanKeeps(rounds[j], OfferedAfter(rounds[..j]), f);
  }

  predicate DistinctIds(es: seq<Envelope>) {
    forall i, j :: 0 <= i < j < |es| ==> es[i].msgId != es[j].msgId
  }

  lemma {:induction false} FilterDistinct(p: Envelope -> bool, es: seq<Envelope>)
    requires DistinctIds(es)
    ensures DistinctIds(Filter(p, es))
  {
    if es == [] {
    } else {
      FilterDistinct(p, es[1..]);
      var rest := Filter(p, es[1..]);
      forall i | 0 <= i < |rest| ensures es[0].msgId != rest[i].msgId {
        assert rest[i] in es[1..];
      }
    }
  }

  /** And within a round no row goes out twice. */
  lemma SprayedOncePerRound(r: Round, offered: set<MsgId>)
    requires DistinctIds(Flatten(Backlogs(r, r.contacts)))
    ensures DistinctIds(Plan(r, offered))
  {
    var backlogs := Backlogs(r, r.contacts);
    FilterDistinct(KeptFor(r, offered), Flatten(backlogs));
    PlanAgainstIdeal(r, offered);
  }
}
