/** Gossip convergence of device rosters (core/src/device_roster.rs:1306-1414):
    which stored roster an honest history leaves behind, for every delivery order
    and any repetition. */
module RosterConvergence {
  import opened Bytes
  import opened Roster
  import opened RosterPreimages
  import opened RosterValidation
  import opened RosterAcceptance
  import opened RosterSamples

  /** What one person's own ceremonies can produce, over any number of epochs:
      valid documents, one per version, each keeping every earlier burial and, in
      its epoch, the generation; no version further apart than the jump bound. */
  ghost predicate HonestHistory(c: Crypto, root: Blob, docs: set<Roster>) {
    && (forall d :: d in docs ==> ValidRoster(c, d, root))
    && (forall a, b :: a in docs && b in docs ==> Consistent(a, b))
  }

  ghost predicate Consistent(a: Roster, b: Roster) {
    && (a.recoveryEpoch == b.recoveryEpoch && a.seqNo == b.seqNo ==> a == b)
    && (VersionBelow(a, b) ==>
          && TombstoneIds(a) <= TombstoneIds(b)
          && Follows(a, b)
          && (a.recoveryEpoch == b.recoveryEpoch ==> a.inboxKeyGeneration <= b.inboxKeyGeneration))
  }

  /** What one honest delivery does: a newer document is taken unless it opens an
      epoch without the root's signature. */
  function Took(root: Blob, held: Roster, d: Roster): Roster {
    if VersionBelow(held, d) && (d.recoveryEpoch == held.recoveryEpoch || d.signerSignPk == root) then d else held
  }

  /** The roster held after a non-empty delivery. */
  function After(root: Blob, ds: seq<Roster>): (r: Roster)
    requires ds != []
    ensures r in ds
  {
    var n := |ds| - 1;
    if n == 0 then ds[0] else Took(root, After(root, ds[..n]), ds[n])
  }

  function Deliveries(ds: seq<Roster>): seq<Event> {
    seq(|ds|, i requires 0 <= i < |ds| => Gossip(ds[i]))
  }

  lemma HonestStep(c: Crypto, root: Blob, held: Roster, d: Roster)
    requires ValidRoster(c, held, root) && ValidRoster(c, d, root)
    requires Consistent(held, d)
    ensures Step(c, root, Held(Some(held), false), Gossip(d)) == Held(Some(Took(root, held, d)), false)
  {
    BuriedApart(c, d, root);
    StepEffect(c, root, Held(Some(held), false), d);
    hide ValidRoster, HeadHash;
  }

  lemma FirstStep(c: Crypto, root: Blob, d: Roster)
    requires ValidRoster(c, d, root)
    ensures Step(c, root, Held(None, false), Gossip(d)) == Held(Some(d), false)
  {
    StepEffect(c, root, Held(None, false), d);
  }

  /** Acceptance follows that rule: on an honest history nothing is ever
      quarantined, and the stored roster is the one the rule names. */
  lemma {:induction false} HonestRun(c: Crypto, root: Blob, docs: set<Roster>, ds: seq<Roster>)
    requires HonestHistory(c, root, docs)
    requires forall i :: 0 <= i < |ds| ==> ds[i] in docs
    ensures Run(c, root, Held(None, false), Deliveries(ds))
         == Held(if ds == [] then None else Some(After(root, ds)), false)
  {
    hide ValidRoster, Consistent, Step;
    if ds == [] {
    } else {
      var n := |ds| - 1;
      HonestRun(c, root, docs, ds[..n]);
      assert Deliveries(ds)[..n] == Deliveries(ds[..n]);
      if n == 0 {
        FirstStep(c, root, ds[n]);
      } else {
        assert After(root, ds[..n]) in ds;
        HonestStep(c, root, After(root, ds[..n]), ds[n]);
      }
    }
  }

  /** The newest version among those delivered. */
  ghost predicate Newest(top: Roster, ds: seq<Roster>) {
    forall i :: 0 <= i < |ds| ==> ds[i] == top || VersionBelow(ds[i], top)
  }

  /** Whether delivery `j` can be what put `top`'s epoch in place. */
  predicate Opens(root: Blob, top: Roster, ds: seq<Roster>, j: nat)
    requires j < |ds|
  {
    ds[j].recoveryEpoch == top.recoveryEpoch && (j == 0 || ds[j].signerSignPk == root)
  }

  ghost predicate Opened(root: Blob, top: Roster, ds: seq<Roster>, k: nat)
    requires k <= |ds|
  {
    exists j :: 0 <= j < k && Opens(root, top, ds, j)
  }

  /** The newest roster arrived at a moment it could be taken: first, or signed by
      the root, or after something that opened its epoch. */
  ghost predicate ArrivesOpen(root: Blob, top: Roster, ds: seq<Roster>) {
    exists k :: 0 <= k < |ds| && ds[k] == top && (top.signerSignPk == root || k == 0 || Opened(root, top, ds, k))
  }

  lemma {:induction false} EpochFollowsOpening(root: Blob, top: Roster, ds: seq<Roster>)
    requires ds != [] && Newest(top, ds)
    ensures After(root, ds).recoveryEpoch == top.recoveryEpoch <==> Opened(root, top, ds, |ds|)
  {
    var n := |ds| - 1;
    if n == 0 {
      assert Opens(root, top, ds, 0) <==> ds[0].recoveryEpoch == top.recoveryEpoch;
    } else {
      EpochFollowsOpening(root, top, ds[..n]);
      assert After(root, ds[..n]) in ds[..n];
      OpenedExtends(root, top, ds);
    }
  }

  lemma OpenedExtends(root: Blob, top: Roster, ds: seq<Roster>)
    requires |ds| > 1
    ensures var n := |ds| - 1;
            Opened(root, top, ds, |ds|) <==>
              Opened(root, top, ds[..n], n) || (ds[n].recoveryEpoch == top.recoveryEpoch && ds[n].signerSignPk == root)
  {
    var n := |ds| - 1;
    if Opened(root, top, ds, |ds|) {
      var j :| 0 <= j < |ds| && Opens(root, top, ds, j);
      if j < n { assert Opens(root, top, ds[..n], j); }
    }
    if Opened(root, top, ds[..n], n) {
      var j :| 0 <= j < n && Opens(root, top, ds[..n], j);
      assert Opens(root, top, ds, j);
    }
    if ds[n].recoveryEpoch == top.recoveryEpoch && ds[n].signerSignPk == root {
      assert Opens(root, top, ds, n);
    }
  }

  lemma ArrivalExtends(root: Blob, top: Roster, ds: seq<Roster>)
    requires |ds| > 1
    ensures var n := |ds| - 1;
            ArrivesOpen(root, top, ds) <==>
              || ArrivesOpen(root, top, ds[..n])
              || (ds[n] == top && (top.signerSignPk == root || Opened(root, top, ds[..n], n)))
  {
    var n := |ds| - 1;
    forall k | 0 <= k <= n ensures Opened(root, top, ds, k) <==> Opened(root, top, ds[..n], k) {
      if Opened(root, top, ds, k) {
        var j :| 0 <= j < k && Opens(root, top, ds, j);
        assert Opens(root, top, ds[..n], j);
      }
      if Opened(root, top, ds[..n], k) {
        var j :| 0 <= j < k && Opens(root, top, ds[..n], j);
        assert Opens(root, top, ds, j);
      }
    }
    if ArrivesOpen(root, top, ds[..n]) {
      var k :| 0 <= k < n && ds[..n][k] == top
               && (top.signerSignPk == root || k == 0 || Opened(root, top, ds[..n], k));
      assert ds[k] == top;
    }
  }

  lemma {:induction false} NewestHeldExactly(root: Blob, top: Roster, ds: seq<Roster>)
    requires ds != [] && Newest(top, ds)
    ensures After(root, ds) == top <==> ArrivesOpen(root, top, ds)
  {
    var n := |ds| - 1;
    if n == 0 {
    } else {
      var held := After(root, ds[..n]);
      NewestHeldExactly(root, top, ds[..n]);
      EpochFollowsOpening(root, top, ds[..n]);
      ArrivalExtends(root, top, ds);
      assert held in ds[..n];
      assert held == top || VersionBelow(held, top);
    }
  }

  /** Convergence, exactly: after any delivery from an honest history the newest
      delivered roster is stored if and only if it arrived at some moment it could
      be taken; either way nothing is quarantined. */
  lemma ConvergesExactly(c: Crypto, root: Blob, docs: set<Roster>, ds: seq<Roster>, top: Roster)
    requires HonestHistory(c, root, docs)
    requires forall i :: 0 <= i < |ds| ==> ds[i] in docs
    requires ds != [] && Newest(top, ds)
    ensures Run(c, root, Held(None, false), Deliveries(ds)) == Held(Some(top), false)
       <==> ArrivesOpen(root, top, ds)
    ensures !Run(c, root, Held(None, false), Deliveries(ds)).quarantined
  {
    HonestRun(c, root, docs, ds);
    NewestHeldExactly(root, top, ds);
  }

  /** Inside one recovery epoch every delivery order converges. */
  lemma OneEpochConverges(c: Crypto, root: Blob, docs: set<Roster>, ds: seq<Roster>, top: Roster)
    requires HonestHistory(c, root, docs)
    requires forall d :: d in docs ==> d.recoveryEpoch == top.recoveryEpoch
    requires forall i :: 0 <= i < |ds| ==> ds[i] in docs
    requires top in ds && Newest(top, ds)
    ensures Run(c, root, Held(None, false), Deliveries(ds)) == Held(Some(top), false)
  {
    ConvergesExactly(c, root, docs, ds, top);
    var k :| 0 <= k < |ds| && ds[k] == top;
    assert Opens(root, top, ds, 0);
    assert ArrivesOpen(root, top, ds);
  }

  /** Across epochs order can matter: a device-signed roster of the next epoch
      that arrives before the root-signed one that opens it is not stored. */
  lemma EpochOrderMatters(c: Crypto, root: Blob, first: Roster, opening: Roster, top: Roster)
    requires HonestHistory(c, root, {first, opening, top})
    requires first.recoveryEpoch < opening.recoveryEpoch == top.recoveryEpoch && opening.seqNo < top.seqNo
    requires opening.signerSignPk == root && top.signerSignPk != root
    ensures Run(c, root, Held(None, false), Deliveries([first, opening, top])) == Held(Some(top), false)
    ensures Run(c, root, Held(None, false), Deliveries([first, top, opening])) == Held(Some(opening), false)
    ensures opening != top
  {
    hide ValidRoster, Consistent, Run;
    HonestRun(c, root, {first, opening, top}, [first, opening, top]);
    HonestRun(c, root, {first, opening, top}, [first, top, opening]);
    assert [first, opening, top][..2] == [first, opening];
    assert [first, top, opening][..2] == [first, top];
    assert [first, opening][..1] == [first] && [first, top][..1] == [first];
    assert After(root, [first, opening]) == opening;
    assert After(root, [first, top]) == first;
  }

  /** There are such documents. */
  lemma EpochOrderMattersSomewhere()
    ensures var c, root := Trusting(), RootKey();
            var first, opening, top :=
              SampleRoster(0, 0, root), SampleRoster(1, 0, root), SampleRoster(1, 1, DeviceKey());
            && HonestHistory(c, root, {first, opening, top})
            && Run(c, root, Held(None, false), Deliveries([first, opening, top])) == Held(Some(top), false)
            && Run(c, root, Held(None, false), Deliveries([first, top, opening])) == Held(Some(opening), false)
            && opening != top
  {
    var c, root := Trusting(), RootKey();
    var first, opening, top := SampleRoster(0, 0, root), SampleRoster(1, 0, root), SampleRoster(1, 1, DeviceKey());
    SampleValid(0, 0, root);
    SampleValid(1, 0, root);
    SampleValid(1, 1, DeviceKey());
    hide ValidRoster, Run;
    assert RootKey()[0] != DeviceKey()[0];
    EpochOrderMatters(c, root, first, opening, top);
  }
}
