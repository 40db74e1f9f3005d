/** The bounded seen-id set behind flood dedupe (core/src/gossip.rs:44-142): an
    exact membership index beside a FIFO queue. */
module SeenIds {
  import opened Sets

  /** Ids are only ever compared. */
  type MsgId = nat

  ghost function Elements(order: seq<MsgId>): set<MsgId> {
    set x | x in order
  }

  ghost predicate Distinct(order: seq<MsgId>) {
    forall i, j :: 0 <= i < j < |order| ==> order[i] != order[j]
  }

  /** The queue after an id is recorded: unchanged if present, else appended with
      the oldest dropped to stay within capacity. */
  function Recorded(order: seq<MsgId>, id: MsgId, capacity: nat): seq<MsgId> {
    if id in order then order
    else
      var longer := order + [id];
      if |longer| > capacity then longer[|longer| - capacity..] else longer
  }

  lemma Appended(order: seq<MsgId>, id: MsgId)
    requires Distinct(order) && id !in Elements(order)
    ensures Distinct(order + [id]) && Elements(order + [id]) == Elements(order) + {id}
    ensures id !in order
  {
    assert id !in order;
  }

  lemma FrontDropped(order: seq<MsgId>)
    requires Distinct(order) && order != []
    ensures Distinct(order[1..]) && Elements(order[1..]) == Elements(order) - {order[0]}
  {
    assert order == [order[0]] + order[1..];
  }

  class SeenIds {
    var seen: set<MsgId>
    var order: seq<MsgId>
    const capacity: nat

    ghost predicate Valid()
      reads this
    {
      capacity >= 1 && |order| <= capacity && seen == Elements(order) && Distinct(order)
    }

    constructor (cap: nat)
      ensures Valid() && order == [] && capacity == if cap == 0 then 1 else cap
    {
      seen, order := {}, [];
      capacity := if cap == 0 then 1 else cap;
    }

    method Insert(id: MsgId)
      requires Valid() && id !in seen
      modifies this
      ensures Valid() && order == Recorded(old(order), id, capacity)
    {
      hide Elements, Distinct;
      Appended(order, id);
      seen := seen + {id};
      order := order + [id];
      ghost var longer := order;
      while |order| > capacity
        invariant |order| <= |longer| && (|order| == |longer| || |order| >= capacity)
        invariant order == longer[|longer| - |order|..]
        invariant seen == Elements(order) && Distinct(order)
      {
        FrontDropped(order);
        var evicted := order[0];
        seen := seen - {evicted};
        order := order[1..];
      }
      assert longer[0..] == longer;
    }

    method CheckAndRecord(id: MsgId) returns (isNew: bool)
      requires Valid()
      modifies this
      ensures Valid() && isNew == (id !in old(order))
      ensures order == Recorded(old(order), id, capacity)
    {
      if id in seen { return false; }
      Insert(id);
      isNew := true;
    }

    method Contains(id: MsgId) returns (known: bool)
      requires Valid()
      ensures known == (id in order)
    {
      known := id in seen;
    }

    method Record(id: MsgId)
      requires Valid()
      modifies this
      ensures Valid() && order == Recorded(old(order), id, capacity)
    {
      if id !in seen { Insert(id); }
    }

    method Len() returns (n: nat)
      requires Valid()
      ensures n == |seen| <= capacity
    {
      n := |order|;
      DistinctSize(order);
    }
  }

  lemma {:induction false} DistinctSize(s: seq<MsgId>)
    requires Distinct(s)
    ensures |Elements(s)| == |s|
  {
    if s == [] {
    } else {
      DistinctSize(s[1..]);
      assert s == [s[0]] + s[1..];
      assert Elements(s) == {s[0]} + Elements(s[1..]);
      assert s[0] !in s[1..];
    }
  }

  // ---- Runs ----

  /** The queue after a run of recorded ids. */
  function After(capacity: nat, ids: seq<MsgId>): seq<MsgId> {
    if ids == [] then [] else Recorded(After(capacity, ids[..|ids| - 1]), ids[|ids| - 1], capacity)
  }

  /** Recording `ids[k]` reported it new. */
  predicate ReportedNew(capacity: nat, ids: seq<MsgId>, k: nat)
    requires k < |ids|
  {
    ids[k] !in After(capacity, ids[..k])
  }

  lemma RecordedKeeps(order: seq<MsgId>, id: MsgId, capacity: nat)
    requires capacity >= 1 && Distinct(order) && |order| <= capacity
    ensures var next := Recorded(order, id, capacity);
            Distinct(next) && |next| <= capacity && id in next
    ensures id !in order ==> Recorded(order, id, capacity)[|Recorded(order, id, capacity)| - 1] == id
  {
    var next := Recorded(order, id, capacity);
    if id !in order { assert next[|next| - 1] == id; }
  }

  lemma {:induction false} QueueSound(capacity: nat, ids: seq<MsgId>)
    requires capacity >= 1
    ensures Distinct(After(capacity, ids)) && |After(capacity, ids)| <= capacity
  {
    if ids == [] {
    } else {
      var n := |ids| - 1;
      QueueSound(capacity, ids[..n]);
      RecordedKeeps(After(capacity, ids[..n]), ids[n], capacity);
    }
  }

  /** The other ids newly recorded after position `i` and before position `j`. */
  ghost function OthersBetween(capacity: nat, ids: seq<MsgId>, i: nat, j: nat): set<MsgId>
    requires i < j <= |ids|
  {
    set k | i < k < j && ReportedNew(capacity, ids, k) && ids[k] != ids[i] :: ids[k]
  }

  /** `ids[i]` was not reported new again before position `j`. */
  ghost predicate NotRenewed(capacity: nat, ids: seq<MsgId>, i: nat, j: nat)
    requires i < j <= |ids|
  {
    forall k :: i < k < j && ids[k] == ids[i] ==> !ReportedNew(capacity, ids, k)
  }

  /** `x` is held, and the ids queued behind it are exactly `others`. */
  ghost predicate HeldBefore(order: seq<MsgId>, x: MsgId, others: set<MsgId>) {
    exists p :: 0 <= p < |order| && order[p] == x && Elements(order[p + 1..]) == others
  }

  /** It is no longer held, and a full queue of others came in since. */
  ghost predicate CrowdedOut(order: seq<MsgId>, x: MsgId, others: set<MsgId>, capacity: nat) {
    x !in order && |others| >= capacity
  }

  /** Since it was recorded an id is either held, in front of exactly what came in
      since, or was crowded out by at least a full queue. */
  lemma {:induction false} HeldOrCrowdedOut(capacity: nat, ids: seq<MsgId>, i: nat, j: nat)
    requires capacity >= 1 && i < j <= |ids| && ReportedNew(capacity, ids, i) && NotRenewed(capacity, ids, i, j)
    ensures var order, others := After(capacity, ids[..j]), OthersBetween(capacity, ids, i, j);
            HeldBefore(order, ids[i], others) || CrowdedOut(order, ids[i], others, capacity)
    decreases j
  {
    hide *;
    var n := j - 1;
    AfterSteps(capacity, ids, j);
    QueueSound(capacity, ids[..n]);
    var order := After(capacity, ids[..n]);
    if n == i {
      NothingBetween(capacity, ids, i);
      JustRecorded(order, ids[i], capacity);
    } else {
      StillNotRenewed(capacity, ids, i, j);
      HeldOrCrowdedOut(capacity, ids, i, n);
      OthersGrow(capacity, ids, i, n);
      StandingSteps(order, ids[n], capacity, ids[i], OthersBetween(capacity, ids, i, n));
    }
  }

  lemma StillNotRenewed(capacity: nat, ids: seq<MsgId>, i: nat, j: nat)
    requires i + 1 < j <= |ids| && NotRenewed(capacity, ids, i, j)
    ensures NotRenewed(capacity, ids, i, j - 1)
    ensures ids[j - 1] == ids[i] ==> ids[j - 1] in After(capacity, ids[..j - 1])
  {
    assert ids[j - 1] == ids[i] ==> !ReportedNew(capacity, ids, j - 1);
  }

  lemma AfterSteps(capacity: nat, ids: seq<MsgId>, j: nat)
    requires 0 < j <= |ids|
    ensures After(capacity, ids[..j]) == Recorded(After(capacity, ids[..j - 1]), ids[j - 1], capacity)
  {
    assert ids[..j][..j - 1] == ids[..j - 1] && ids[..j][j - 1] == ids[j - 1];
  }

  lemma NothingBetween(capacity: nat, ids: seq<MsgId>, i: nat)
    requires i < |ids| && ReportedNew(capacity, ids, i)
    ensures OthersBetween(capacity, ids, i, i + 1) == {} && ids[i] !in After(capacity, ids[..i])
  {
  }

  lemma JustRecorded(order: seq<MsgId>, x: MsgId, capacity: nat)
    requires capacity >= 1 && Distinct(order) && |order| <= capacity && x !in order
    ensures HeldBefore(Recorded(order, x, capacity), x, {})
  {
    RecordedKeeps(order, x, capacity);
    var next := Recorded(order, x, capacity);
    assert next[|next| - 1] == x && next[|next|..] == [];
  }

  lemma StandingSteps(order: seq<MsgId>, id: MsgId, capacity: nat, x: MsgId, others: set<MsgId>)
    requires Distinct(order) && 1 <= capacity && |order| <= capacity && (id == x ==> id in order)
    requires HeldBefore(order, x, others) || CrowdedOut(order, x, others, capacity)
    ensures var next, now := Recorded(order, id, capacity), if id in order then others else others + {id};
            HeldBefore(next, x, now) || CrowdedOut(next, x, now, capacity)
  {
    if HeldBefore(order, x, others) {
      RecordingCrowds(order, id, capacity, x, others);
    } else {
      SubsetSize(others, others + {id});
    }
  }

  lemma OthersGrow(capacity: nat, ids: seq<MsgId>, i: nat, n: nat)
    requires i < n < |ids|
    ensures var others := OthersBetween(capacity, ids, i, n);
            OthersBetween(capacity, ids, i, n + 1) ==
            if ids[n] !in After(capacity, ids[..n]) && ids[n] != ids[i] then others + {ids[n]} else others
  {
  }

  /** One recording: the held id stays in front of the newcomers, or it is evicted
      because a full queue of newcomers followed it. */
  lemma RecordingCrowds(order: seq<MsgId>, id: MsgId, capacity: nat, x: MsgId, others: set<MsgId>)
    requires Distinct(order) && 1 <= capacity && |order| <= capacity && HeldBefore(order, x, others)
    ensures var next, now := Recorded(order, id, capacity), if id in order then others else others + {id};
            HeldBefore(next, x, now) || CrowdedOut(next, x, now, capacity)
  {
    hide Elements;
    var p :| 0 <= p < |order| && order[p] == x && Elements(order[p + 1..]) == others;
    if id !in order {
      var longer := order + [id];
      Newcomer(order, id, p);
      if |longer| <= capacity {
        assert longer[p] == x;
        assert HeldBefore(longer, x, others + {id});
      } else if p > 0 {
        var next := longer[1..];
        assert next[p - 1] == x && next[p..] == longer[p + 1..];
        assert HeldBefore(next, x, others + {id});
      } else {
        DistinctSize(longer[1..]);
        assert x !in longer[1..];
      }
    }
  }

  /** Appending a new id to a distinct queue, seen from behind position `p`. */
  lemma Newcomer(order: seq<MsgId>, id: MsgId, p: nat)
    requires p < |order| && Distinct(order) && id !in order
    ensures var behind := (order + [id])[p + 1..];
            Distinct(behind) && Elements(behind) == Elements(order[p + 1..]) + {id}
  {
    assert (order + [id])[p + 1..] == order[p + 1..] + [id];
  }

  /** Held behind fewer than a full queue. */
  lemma HeldMeansFewer(order: seq<MsgId>, x: MsgId, others: set<MsgId>)
    requires Distinct(order) && HeldBefore(order, x, others)
    ensures x in order && |others| < |order|
  {
    var p :| 0 <= p < |order| && order[p] == x && Elements(order[p + 1..]) == others;
    DistinctSize(order[p + 1..]);
  }

  /** An id recorded again is reported new exactly when at least `capacity` distinct
      other ids were newly recorded since it last was. */
  lemma NewAgainExactly(capacity: nat, ids: seq<MsgId>, i: nat, j: nat)
    requires capacity >= 1 && i < j < |ids| && ids[i] == ids[j]
    requires ReportedNew(capacity, ids, i) && NotRenewed(capacity, ids, i, j)
    ensures ReportedNew(capacity, ids, j) <==> |OthersBetween(capacity, ids, i, j)| >= capacity
  {
    HeldOrCrowdedOut(capacity, ids, i, j);
    QueueSound(capacity, ids[..j]);
    var order, others := After(capacity, ids[..j]), OthersBetween(capacity, ids, i, j);
    if HeldBefore(order, ids[i], others) { HeldMeansFewer(order, ids[i], others); }
  }

  /** So between any two reports of one id as new lie at least that many. */
  lemma {:induction false} NewTwiceMeansCrowdedOut(capacity: nat, ids: seq<MsgId>, i: nat, j: nat)
    requires capacity >= 1 && i < j < |ids| && ids[i] == ids[j]
    requires ReportedNew(capacity, ids, i) && ReportedNew(capacity, ids, j)
    ensures |OthersBetween(capacity, ids, i, j)| >= capacity
    decreases j - i
  {
    if NotRenewed(capacity, ids, i, j) {
      NewAgainExactly(capacity, ids, i, j);
    } else {
      var k :| i < k < j && ids[k] == ids[i] && ReportedNew(capacity, ids, k);
      NewTwiceMeansCrowdedOut(capacity, ids, k, j);
      SubsetSize(OthersBetween(capacity, ids, k, j), OthersBetween(capacity, ids, i, j));
    }
  }
}
