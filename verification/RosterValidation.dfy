/** `validate` (core/src/device_roster.rs:897-1034): the checks in their order,
    the certificate fixpoint, and what a roster that passes them all is. */
module RosterValidation {
  import opened Bytes
  import opened Roster
  import opened RosterPreimages

  datatype Rejection =
    | PersonMismatch
    | MalformedField
    | ReservedDeviceId
    | DuplicateDevice
    | CertSignatureInvalid
    | ChainBroken
    | SignatureInvalid
    | SignerNotAuthorized
    | ApprovingDeviceMissing
    | ApprovingRoleMismatch
    | GenesisNotRootSigned
    | TombstonedDeviceActive
    | DeviceCapExceeded

  // ---- The certificate chain ----

  /** A finite path of certificates, each signed by the device the next one
      names, whose last signer is the person root. */
  ghost predicate SignerPath(c: Crypto, certs: seq<DeviceCert>, root: Blob, path: seq<nat>) {
    && |path| > 0
    && path[0] < |certs|
    && if |path| == 1 then certs[path[0]].signerSignPk == root
       else && SignerPath(c, certs, root, path[1..])
            && c.userId(certs[path[0]].signerSignPk) == c.userId(certs[path[1]].deviceSignPk)
  }

  ghost predicate Chains(c: Crypto, certs: seq<DeviceCert>, root: Blob, i: nat) {
    exists path: seq<nat> :: SignerPath(c, certs, root, path) && path[0] == i
  }

  predicate ReachesRoot(c: Crypto, certs: seq<DeviceCert>, root: Blob, vouched: seq<bool>, i: nat)
    requires i < |certs| == |vouched|
  {
    || certs[i].signerSignPk == root
    || exists other :: 0 <= other < |certs| && vouched[other]
                       && DeviceId(c, certs[other]) == c.userId(certs[i].signerSignPk)
  }

  ghost predicate Sound(c: Crypto, certs: seq<DeviceCert>, root: Blob, vouched: seq<bool>)
    requires |certs| == |vouched|
  {
    forall i :: 0 <= i < |certs| && vouched[i] ==> Chains(c, certs, root, i)
  }

  ghost predicate Closed(c: Crypto, certs: seq<DeviceCert>, root: Blob, vouched: seq<bool>)
    requires |certs| == |vouched|
  {
    forall i :: 0 <= i < |certs| && !vouched[i] ==> !ReachesRoot(c, certs, root, vouched, i)
  }

  /** Reaching a vouched certificate extends its path. */
  lemma ReachingChains(c: Crypto, certs: seq<DeviceCert>, root: Blob, vouched: seq<bool>, i: nat)
    requires i < |certs| == |vouched|
    requires Sound(c, certs, root, vouched) && ReachesRoot(c, certs, root, vouched, i)
    ensures Chains(c, certs, root, i)
  {
    if certs[i].signerSignPk == root {
      assert SignerPath(c, certs, root, [i]);
    } else {
      var other :| 0 <= other < |certs| && vouched[other]
                   && DeviceId(c, certs[other]) == c.userId(certs[i].signerSignPk);
      var path: seq<nat> :| SignerPath(c, certs, root, path) && path[0] == other;
      assert ([i] + path)[1..] == path;
      assert SignerPath(c, certs, root, [i] + path);
    }
  }

  /** A closed marking has marked everything a path starts from. */
  lemma {:induction false} PathsAreMarked(
      c: Crypto, certs: seq<DeviceCert>, root: Blob, vouched: seq<bool>, path: seq<nat>)
    requires |certs| == |vouched|
    requires Closed(c, certs, root, vouched) && SignerPath(c, certs, root, path)
    ensures vouched[path[0]]
  {
    if |path| == 1 {
    } else {
      PathsAreMarked(c, certs, root, vouched, path[1..]);
    }
    assert ReachesRoot(c, certs, root, vouched, path[0]);
  }

  function Unvouched(vouched: seq<bool>): nat {
    if vouched == [] then 0 else (if vouched[0] then 0 else 1) + Unvouched(vouched[1..])
  }

  lemma {:induction false} MarkingShrinks(vouched: seq<bool>, i: nat)
    requires i < |vouched| && !vouched[i]
    ensures Unvouched(vouched[i := true]) == Unvouched(vouched) - 1
  {
    if i == 0 {
      assert vouched[i := true][1..] == vouched[1..];
    } else {
      MarkingShrinks(vouched[1..], i - 1);
      assert vouched[i := true][1..] == vouched[1..][i - 1 := true];
    }
  }

  /** The fixpoint loop: it stops, and marks exactly the certificates with a
      signer path to the root. */
  method VouchFixpoint(c: Crypto, certs: seq<DeviceCert>, root: Blob) returns (marks: seq<bool>)
    ensures |marks| == |certs|
    ensures forall i :: 0 <= i < |certs| ==> (marks[i] <==> Chains(c, certs, root, i))
  {
    var vouched := new bool[|certs|](_ => false);
    var grew := true;
    while grew
      invariant Sound(c, certs, root, vouched[..])
      invariant !grew ==> Closed(c, certs, root, vouched[..])
      decreases Unvouched(vouched[..]), grew
    {
      grew := false;
      ghost var before := vouched[..];
      for index := 0 to |certs|
        invariant Sound(c, certs, root, vouched[..])
        invariant grew ==> Unvouched(vouched[..]) < Unvouched(before)
        invariant !grew ==> vouched[..] == before
        invariant !grew ==> forall j :: 0 <= j < index && !before[j] ==> !ReachesRoot(c, certs, root, before, j)
        invariant Unvouched(vouched[..]) <= Unvouched(before)
      {
        if !vouched[index] && ReachesRoot(c, certs, root, vouched[..], index) {
          ReachingChains(c, certs, root, vouched[..], index);
          MarkingShrinks(vouched[..], index);
          ghost var marked := vouched[..][index := true];
          vouched[index] := true;
          assert vouched[..] == marked;
          grew := true;
        }
      }
    }
    marks := vouched[..];
    forall i | 0 <= i < |certs| && Chains(c, certs, root, i) ensures marks[i] {
      var path: seq<nat> :| SignerPath(c, certs, root, path) && path[0] == i;
      PathsAreMarked(c, certs, root, marks, path);
    }
  }

  /** Certificates that vouch only for each other, or for themselves, have no
      path, however many of them there are. */
  lemma ClosedGroupNeverChains(c: Crypto, certs: seq<DeviceCert>, root: Blob, group: set<nat>)
    requires forall i :: i in group ==>
               && i < |certs| && certs[i].signerSignPk != root
               && forall j :: 0 <= j < |certs| && DeviceId(c, certs[j]) == c.userId(certs[i].signerSignPk)
                              ==> j in group
    ensures forall i :: i in group ==> !Chains(c, certs, root, i)
  {
    var outside := seq(|certs|, i => i !in group);
    assert Closed(c, certs, root, outside);
    forall i | i in group ensures !Chains(c, certs, root, i) {
      if Chains(c, certs, root, i) {
        var path: seq<nat> :| SignerPath(c, certs, root, path) && path[0] == i;
        PathsAreMarked(c, certs, root, outside, path);
      }
    }
  }

  /** Document order does not matter: reordering certificates reorders the marks. */
  lemma OrderIrrelevant(
      c: Crypto, certs: seq<DeviceCert>, root: Blob, order: seq<nat>, reordered: seq<DeviceCert>, i: nat)
    requires |order| == |reordered| == |certs|
    requires forall k :: 0 <= k < |order| ==> order[k] < |certs| && reordered[k] == certs[order[k]]
    requires forall j :: 0 <= j < |certs| ==> j in order
    requires i < |certs|
    ensures Chains(c, reordered, root, i) <==> Chains(c, certs, root, order[i])
  {
    if Chains(c, reordered, root, i) {
      var path: seq<nat> :| SignerPath(c, reordered, root, path) && path[0] == i;
      PathForward(c, certs, root, order, reordered, path);
    }
    if Chains(c, certs, root, order[i]) {
      var path: seq<nat> :| SignerPath(c, certs, root, path) && path[0] == order[i];
      PathBackward(c, certs, root, order, reordered, path, i);
    }
  }

  lemma {:induction false} PathForward(
      c: Crypto, certs: seq<DeviceCert>, root: Blob, order: seq<nat>, reordered: seq<DeviceCert>, path: seq<nat>)
    requires |order| == |reordered| == |certs|
    requires forall k :: 0 <= k < |order| ==> order[k] < |certs| && reordered[k] == certs[order[k]]
    requires SignerPath(c, reordered, root, path)
    ensures Chains(c, certs, root, order[path[0]])
  {
    var i := order[path[0]];
    if |path| == 1 {
      assert SignerPath(c, certs, root, [i]);
    } else {
      PathForward(c, certs, root, order, reordered, path[1..]);
      var tail: seq<nat> :| SignerPath(c, certs, root, tail) && tail[0] == order[path[1]];
      assert ([i] + tail)[1..] == tail;
      assert SignerPath(c, certs, root, [i] + tail);
    }
  }

  lemma {:induction false} PathBackward(
      c: Crypto, certs: seq<DeviceCert>, root: Blob, order: seq<nat>, reordered: seq<DeviceCert>,
      path: seq<nat>, i: nat)
    requires |order| == |reordered| == |certs|
    requires forall k :: 0 <= k < |order| ==> order[k] < |certs| && reordered[k] == certs[order[k]]
    requires forall j :: 0 <= j < |certs| ==> j in order
    requires i < |order| && SignerPath(c, certs, root, path) && path[0] == order[i]
    ensures Chains(c, reordered, root, i)
    decreases path
  {
    if |path| == 1 {
      assert SignerPath(c, reordered, root, [i]);
    } else {
      assert path[1..][0] < |certs|;
      assert path[1] in order;
      var k :| 0 <= k < |order| && order[k] == path[1];
      PathBackward(c, certs, root, order, reordered, path[1..], k);
      var tail: seq<nat> :| SignerPath(c, reordered, root, tail) && tail[0] == k;
      assert ([i] + tail)[1..] == tail;
      assert SignerPath(c, reordered, root, [i] + tail);
    }
  }

  // ---- The verdict: the first check that fails, in the code's order ----

  predicate HeaderShaped(r: Roster, root: Blob) {
    |root| == KEY_LEN && |r.personId| == DEVICE_ID_LEN && |r.approvingDeviceId| == DEVICE_ID_LEN
    && |r.signerSignPk| == KEY_LEN && |r.signature| == SIGNATURE_LEN
  }

  predicate CertShaped(cert: DeviceCert) {
    |cert.deviceSignPk| == KEY_LEN && |cert.deviceAgreePk| == KEY_LEN
    && |cert.signerSignPk| == KEY_LEN && |cert.signature| == SIGNATURE_LEN
  }

  /** `devices.len() as u32`. */
  function DeviceCount(r: Roster): u32 {
    |r.devices| % 0x1_0000_0000
  }

  predicate HoldsSigningRole(cert: DeviceCert) {
    cert.flags % 2 == 1
  }

  predicate CertVerifies(c: Crypto, cert: DeviceCert) {
    c.verifies(cert.signerSignPk, CertSignedBytes(cert), cert.signature)
  }

  predicate DocumentVerifies(c: Crypto, r: Roster) {
    c.verifies(r.signerSignPk, RosterSignedBytes(r), r.signature)
  }

  function DeviceFault(c: Crypto, r: Roster, i: nat): Option<Rejection>
    requires i < |r.devices|
  {
    var cert := r.devices[i];
    if !CertShaped(cert) then Some(MalformedField)
    else if cert.personId != r.personId then Some(PersonMismatch)
    else if DeviceId(c, cert) == LEGACY_DEVICE_ID then Some(ReservedDeviceId)
    else if exists j :: 0 <= j < i && DeviceId(c, r.devices[j]) == DeviceId(c, cert) then Some(DuplicateDevice)
    else None
  }

  function TombstoneFault(c: Crypto, r: Roster, i: nat): Option<Rejection>
    requires i < |r.tombstones|
  {
    var id := r.tombstones[i].deviceId;
    if |id| != DEVICE_ID_LEN then Some(MalformedField)
    else if exists j :: 0 <= j < i && r.tombstones[j].deviceId == id then Some(DuplicateDevice)
    else if exists j :: 0 <= j < |r.devices| && DeviceId(c, r.devices[j]) == id then Some(TombstonedDeviceActive)
    else None
  }

  function FirstDeviceFault(c: Crypto, r: Roster, i: nat): Option<Rejection>
    requires i <= |r.devices|
    decreases |r.devices| - i
  {
    if i == |r.devices| then None
    else if DeviceFault(c, r, i).Some? then DeviceFault(c, r, i)
    else FirstDeviceFault(c, r, i + 1)
  }

  function FirstTombstoneFault(c: Crypto, r: Roster, i: nat): Option<Rejection>
    requires i <= |r.tombstones|
    decreases |r.tombstones| - i
  {
    if i == |r.tombstones| then None
    else if TombstoneFault(c, r, i).Some? then TombstoneFault(c, r, i)
    else FirstTombstoneFault(c, r, i + 1)
  }

  predicate Approves(c: Crypto, r: Roster, i: nat)
    requires i < |r.devices|
  {
    DeviceId(c, r.devices[i]) == r.approvingDeviceId
  }

  predicate HasApprover(c: Crypto, r: Roster) {
    exists i :: 0 <= i < |r.devices| && Approves(c, r, i)
  }

  predicate RolesAgree(c: Crypto, r: Roster) {
    forall i :: 0 <= i < |r.devices| ==> (HoldsSigningRole(r.devices[i]) <==> Approves(c, r, i))
  }

  predicate SignedByApprover(c: Crypto, r: Roster) {
    exists i :: 0 <= i < |r.devices| && Approves(c, r, i) && r.signerSignPk == r.devices[i].deviceSignPk
  }

  predicate CertsVerify(c: Crypto, r: Roster) {
    forall i :: 0 <= i < |r.devices| ==> CertVerifies(c, r.devices[i])
  }

  ghost predicate CertsChain(c: Crypto, r: Roster, root: Blob) {
    forall i :: 0 <= i < |r.devices| ==> Chains(c, r.devices, root, i)
  }

  /** The checks after the scans, on the document's authority. */
  ghost function AuthorityFault(c: Crypto, r: Roster, root: Blob): Option<Rejection> {
    if !HasApprover(c, r) then Some(ApprovingDeviceMissing)
    else if !RolesAgree(c, r) then Some(ApprovingRoleMismatch)
    else if !CertsVerify(c, r) then Some(CertSignatureInvalid)
    else if !CertsChain(c, r, root) then Some(ChainBroken)
    else if r.signerSignPk != root && !SignedByApprover(c, r) then Some(SignerNotAuthorized)
    else if r.seqNo == 0 && r.signerSignPk != root then Some(GenesisNotRootSigned)
    else if !DocumentVerifies(c, r) then Some(SignatureInvalid)
    else None
  }

  /** Why the roster is refused, or `None`. */
  ghost function Verdict(c: Crypto, r: Roster, root: Blob): Option<Rejection> {
    if !HeaderShaped(r, root) then Some(MalformedField)
    else if c.userId(root) != r.personId then Some(PersonMismatch)
    else if DeviceAdd(DeviceCount(r)).Refused? then Some(DeviceCapExceeded)
    else if FirstDeviceFault(c, r, 0).Some? then FirstDeviceFault(c, r, 0)
    else if FirstTombstoneFault(c, r, 0).Some? then FirstTombstoneFault(c, r, 0)
    else AuthorityFault(c, r, root)
  }

  // ---- What the checks add up to, on the document's own fields ----

  ghost predicate HeaderSpelled(r: Roster, root: Blob) {
    |root| == 32 && |r.personId| == 16 && |r.approvingDeviceId| == 16 && |r.signerSignPk| == 32 && |r.signature| == 64
  }

  ghost predicate CertSpelled(cert: DeviceCert) {
    |cert.deviceSignPk| == 32 && |cert.deviceAgreePk| == 32 && |cert.signerSignPk| == 32 && |cert.signature| == 64
  }

  ghost predicate Reserved(id: Blob) {
    |id| == 16 && forall k :: 0 <= k < 16 ==> id[k] == 0
  }

  /** The i-th device is whole, the person's, real, and not listed before. */
  ghost predicate DeviceClean(c: Crypto, r: Roster, i: nat)
    requires i < |r.devices|
  {
    && CertSpelled(r.devices[i]) && r.devices[i].personId == r.personId
    && !Reserved(c.userId(r.devices[i].deviceSignPk))
    && forall j :: 0 <= j < i ==> c.userId(r.devices[j].deviceSignPk) != c.userId(r.devices[i].deviceSignPk)
  }

  /** The i-th burial is whole, not listed before, and not of a listed device. */
  ghost predicate BurialClean(c: Crypto, r: Roster, i: nat)
    requires i < |r.tombstones|
  {
    && |r.tombstones[i].deviceId| == 16
    && (forall j :: 0 <= j < i ==> r.tombstones[j].deviceId != r.tombstones[i].deviceId)
    && forall j :: 0 <= j < |r.devices| ==> c.userId(r.devices[j].deviceSignPk) != r.tombstones[i].deviceId
  }

  ghost predicate DevicesClean(c: Crypto, r: Roster, upTo: nat)
    requires upTo <= |r.devices|
  {
    forall i :: 0 <= i < upTo ==> DeviceClean(c, r, i)
  }

  ghost predicate BurialsClean(c: Crypto, r: Roster, upTo: nat)
    requires upTo <= |r.tombstones|
  {
    forall i :: 0 <= i < upTo ==> BurialClean(c, r, i)
  }

  ghost predicate IsApprover(c: Crypto, r: Roster, i: nat)
    requires i < |r.devices|
  {
    c.userId(r.devices[i].deviceSignPk) == r.approvingDeviceId
  }

  ghost predicate Approved(c: Crypto, r: Roster) {
    exists i :: 0 <= i < |r.devices| && IsApprover(c, r, i)
  }

  /** The signing flag, bit 0, is the approver's and nobody else's. */
  ghost predicate FlaggedRightly(c: Crypto, r: Roster) {
    forall i :: 0 <= i < |r.devices| ==> (r.devices[i].flags % 2 == 1 <==> IsApprover(c, r, i))
  }

  ghost predicate CertSigned(c: Crypto, cert: DeviceCert) {
    c.verifies(cert.signerSignPk, CertSignedBytes(cert), cert.signature)
  }

  ghost predicate CertsSigned(c: Crypto, r: Roster) {
    forall i :: 0 <= i < |r.devices| ==> CertSigned(c, r.devices[i])
  }

  ghost predicate AllChain(c: Crypto, r: Roster, root: Blob) {
    forall i :: 0 <= i < |r.devices| ==> Chains(c, r.devices, root, i)
  }

  ghost predicate ByApprover(c: Crypto, r: Roster) {
    exists i :: 0 <= i < |r.devices| && IsApprover(c, r, i) && r.devices[i].deviceSignPk == r.signerSignPk
  }

  ghost predicate Opening(c: Crypto, r: Roster, root: Blob) {
    HeaderSpelled(r, root) && c.userId(root) == r.personId && |r.devices| % 0x1_0000_0000 <= 16
  }

  ghost predicate Contents(c: Crypto, r: Roster, root: Blob) {
    Opening(c, r, root) && DevicesClean(c, r, |r.devices|) && BurialsClean(c, r, |r.tombstones|)
  }

  ghost predicate Certified(c: Crypto, r: Roster, root: Blob) {
    Contents(c, r, root) && Approved(c, r) && FlaggedRightly(c, r) && CertsSigned(c, r) && AllChain(c, r, root)
  }

  ghost predicate Authorised(c: Crypto, r: Roster, root: Blob) {
    Certified(c, r, root) && (r.signerSignPk == root || ByApprover(c, r))
  }

  /** A roster on its own terms: one person, real and distinct devices, none of
      them buried, one approver holding the one signing role, every certificate
      verified and chained to the root, and the whole signed with authority. */
  ghost predicate ValidRoster(c: Crypto, r: Roster, root: Blob) {
    && Authorised(c, r, root) && (r.seqNo == 0 ==> r.signerSignPk == root)
    && c.verifies(r.signerSignPk, RosterSignedBytes(r), r.signature)
  }

  /** What each verdict says of the document: the stages it passed, and where it
      fell, at the first device or burial that is not clean. */
  ghost predicate Judged(c: Crypto, r: Roster, root: Blob, verdict: Option<Rejection>) {
    match verdict
    case None => ValidRoster(c, r, root)
    case Some(MalformedField) =>
      || !HeaderSpelled(r, root)
      || (exists i: nat :: FirstUnclean(c, r, root, i) && !CertSpelled(r.devices[i]))
      || (exists i: nat :: FirstUncleanBurial(c, r, root, i) && |r.tombstones[i].deviceId| != 16)
    case Some(PersonMismatch) =>
      || (HeaderSpelled(r, root) && c.userId(root) != r.personId)
      || (exists i: nat :: FirstUnclean(c, r, root, i) && CertSpelled(r.devices[i])
                           && r.devices[i].personId != r.personId)
    case Some(DeviceCapExceeded) =>
      HeaderSpelled(r, root) && c.userId(root) == r.personId && |r.devices| % 0x1_0000_0000 > 16
    case Some(ReservedDeviceId) =>
      exists i: nat :: FirstUnclean(c, r, root, i) && CertSpelled(r.devices[i]) && r.devices[i].personId == r.personId
                  && Reserved(c.userId(r.devices[i].deviceSignPk))
    case Some(DuplicateDevice) =>
      || (exists i: nat :: FirstUnclean(c, r, root, i) && CertSpelled(r.devices[i])
                           && r.devices[i].personId == r.personId && !Reserved(c.userId(r.devices[i].deviceSignPk)))
      || (exists i: nat :: FirstUncleanBurial(c, r, root, i) && |r.tombstones[i].deviceId| == 16
                      && exists j :: 0 <= j < i && r.tombstones[j].deviceId == r.tombstones[i].deviceId)
    case Some(TombstonedDeviceActive) =>
      exists i: nat :: FirstUncleanBurial(c, r, root, i) && |r.tombstones[i].deviceId| == 16
                  && forall j :: 0 <= j < i ==> r.tombstones[j].deviceId != r.tombstones[i].deviceId
    case Some(ApprovingDeviceMissing) => Contents(c, r, root) && !Approved(c, r)
    case Some(ApprovingRoleMismatch) => Contents(c, r, root) && Approved(c, r) && !FlaggedRightly(c, r)
    case Some(CertSignatureInvalid) =>
      Contents(c, r, root) && Approved(c, r) && FlaggedRightly(c, r) && !CertsSigned(c, r)
    case Some(ChainBroken) =>
      && Contents(c, r, root) && Approved(c, r) && FlaggedRightly(c, r) && CertsSigned(c, r)
      && exists i :: 0 <= i < |r.devices| && !Chains(c, r.devices, root, i)
    case Some(SignerNotAuthorized) => Certified(c, r, root) && r.signerSignPk != root && !ByApprover(c, r)
    case Some(GenesisNotRootSigned) => Authorised(c, r, root) && r.seqNo == 0 && r.signerSignPk != root
    case Some(SignatureInvalid) =>
      && Authorised(c, r, root) && (r.seqNo == 0 ==> r.signerSignPk == root)
      && !c.verifies(r.signerSignPk, RosterSignedBytes(r), r.signature)
  }

  ghost predicate FirstUnclean(c: Crypto, r: Roster, root: Blob, i: nat) {
    Opening(c, r, root) && i < |r.devices| && DevicesClean(c, r, i) && !DeviceClean(c, r, i)
  }

  ghost predicate FirstUncleanBurial(c: Crypto, r: Roster, root: Blob, i: nat) {
    && Opening(c, r, root) && DevicesClean(c, r, |r.devices|)
    && i < |r.tombstones| && BurialsClean(c, r, i) && !BurialClean(c, r, i)
  }

  lemma {:induction false} NoDeviceFault(c: Crypto, r: Roster, i: nat)
    requires i <= |r.devices|
    ensures FirstDeviceFault(c, r, i).None?
       <==> forall j :: i <= j < |r.devices| ==> DeviceFault(c, r, j).None?
    decreases |r.devices| - i
  {
    if i == |r.devices| {
    } else {
      NoDeviceFault(c, r, i + 1);
    }
  }

  lemma {:induction false} NoTombstoneFault(c: Crypto, r: Roster, i: nat)
    requires i <= |r.tombstones|
    ensures FirstTombstoneFault(c, r, i).None?
       <==> forall j :: i <= j < |r.tombstones| ==> TombstoneFault(c, r, j).None?
    decreases |r.tombstones| - i
  {
    if i == |r.tombstones| {
    } else {
      NoTombstoneFault(c, r, i + 1);
    }
  }

  lemma ReservedIsLegacy(id: Blob)
    ensures Reserved(id) <==> id == LEGACY_DEVICE_ID
  {
    if Reserved(id) { assert id == LEGACY_DEVICE_ID; }
  }

  lemma DeviceFaultSpelled(c: Crypto, r: Roster, i: nat)
    requires i < |r.devices|
    ensures DeviceFault(c, r, i).None? <==> DeviceClean(c, r, i)
    ensures var cert, fault := r.devices[i], DeviceFault(c, r, i);
            && (fault == Some(MalformedField) <==> !CertSpelled(cert))
            && (fault == Some(PersonMismatch) <==> CertSpelled(cert) && cert.personId != r.personId)
            && (fault == Some(ReservedDeviceId) <==>
                  CertSpelled(cert) && cert.personId == r.personId && Reserved(c.userId(cert.deviceSignPk)))
            && fault in {None, Some(MalformedField), Some(PersonMismatch), Some(ReservedDeviceId),
                         Some(DuplicateDevice)}
  {
    ReservedIsLegacy(c.userId(r.devices[i].deviceSignPk));
  }

  lemma TombstoneFaultSpelled(c: Crypto, r: Roster, i: nat)
    requires i < |r.tombstones|
    ensures TombstoneFault(c, r, i).None? <==> BurialClean(c, r, i)
    ensures var id, fault := r.tombstones[i].deviceId, TombstoneFault(c, r, i);
            && (fault == Some(MalformedField) <==> |id| != 16)
            && (fault == Some(DuplicateDevice) <==>
                  |id| == 16 && exists j :: 0 <= j < i && r.tombstones[j].deviceId == id)
            && fault in {None, Some(MalformedField), Some(DuplicateDevice), Some(TombstonedDeviceActive)}
  {
  }

  /** Scanning from `i`, the first fault decides. */
  lemma {:induction false} DeviceScanStops(c: Crypto, r: Roster, i: nat, k: nat)
    requires i <= k < |r.devices| && DeviceFault(c, r, k).Some?
    requires forall j :: i <= j < k ==> DeviceFault(c, r, j).None?
    ensures FirstDeviceFault(c, r, i) == DeviceFault(c, r, k)
    decreases k - i
  {
    if i == k {
    } else {
      DeviceScanStops(c, r, i + 1, k);
    }
  }

  lemma {:induction false} TombstoneScanStops(c: Crypto, r: Roster, i: nat, k: nat)
    requires i <= k < |r.tombstones| && TombstoneFault(c, r, k).Some?
    requires forall j :: i <= j < k ==> TombstoneFault(c, r, j).None?
    ensures FirstTombstoneFault(c, r, i) == TombstoneFault(c, r, k)
    decreases k - i
  {
    if i == k {
    } else {
      TombstoneScanStops(c, r, i + 1, k);
    }
  }

  /** The first device that is not clean, if any, and the scan's answer at it. */
  lemma DeviceScanSpelled(c: Crypto, r: Roster, root: Blob)
    requires Opening(c, r, root)
    ensures FirstDeviceFault(c, r, 0).None? <==> DevicesClean(c, r, |r.devices|)
    ensures forall i: nat :: FirstUnclean(c, r, root, i) ==> FirstDeviceFault(c, r, 0) == DeviceFault(c, r, i)
    ensures FirstDeviceFault(c, r, 0).Some? ==> exists i: nat :: FirstUnclean(c, r, root, i)
  {
    hide DeviceClean, Opening, DeviceFault;
    forall i | 0 <= i < |r.devices| ensures DeviceFault(c, r, i).None? <==> DeviceClean(c, r, i) {
      DeviceFaultSpelled(c, r, i);
    }
    NoDeviceFault(c, r, 0);
    forall i: nat | FirstUnclean(c, r, root, i) ensures FirstDeviceFault(c, r, 0) == DeviceFault(c, r, i) {
      DeviceScanStops(c, r, 0, i);
    }
    if FirstDeviceFault(c, r, 0).Some? {
      var i :| 0 <= i < |r.devices| && !DeviceClean(c, r, i);
      LeastUnclean(c, r, root, i);
    }
  }

  lemma {:induction false} LeastUnclean(c: Crypto, r: Roster, root: Blob, i: nat)
    requires Opening(c, r, root) && i < |r.devices| && !DeviceClean(c, r, i)
    ensures exists k: nat :: FirstUnclean(c, r, root, k)
  {
    hide DeviceClean, Opening;
    if DevicesClean(c, r, i) {
      assert FirstUnclean(c, r, root, i);
    } else {
      var j :| 0 <= j < i && !DeviceClean(c, r, j);
      LeastUnclean(c, r, root, j);
    }
  }

  lemma TombstoneScanSpelled(c: Crypto, r: Roster, root: Blob)
    requires Opening(c, r, root) && DevicesClean(c, r, |r.devices|)
    ensures FirstTombstoneFault(c, r, 0).None? <==> BurialsClean(c, r, |r.tombstones|)
    ensures forall i: nat :: FirstUncleanBurial(c, r, root, i) ==>
              FirstTombstoneFault(c, r, 0) == TombstoneFault(c, r, i)
    ensures FirstTombstoneFault(c, r, 0).Some? ==> exists i: nat :: FirstUncleanBurial(c, r, root, i)
  {
    hide BurialClean, DevicesClean, Opening, TombstoneFault;
    forall i | 0 <= i < |r.tombstones| ensures TombstoneFault(c, r, i).None? <==> BurialClean(c, r, i) {
      TombstoneFaultSpelled(c, r, i);
    }
    NoTombstoneFault(c, r, 0);
    forall i: nat | FirstUncleanBurial(c, r, root, i) ensures FirstTombstoneFault(c, r, 0) == TombstoneFault(c, r, i) {
      TombstoneScanStops(c, r, 0, i);
    }
    if FirstTombstoneFault(c, r, 0).Some? {
      var i :| 0 <= i < |r.tombstones| && !BurialClean(c, r, i);
      LeastUncleanBurial(c, r, root, i);
    }
  }

  lemma {:induction false} LeastUncleanBurial(c: Crypto, r: Roster, root: Blob, i: nat)
    requires Opening(c, r, root) && DevicesClean(c, r, |r.devices|) && i < |r.tombstones| && !BurialClean(c, r, i)
    ensures exists k: nat :: FirstUncleanBurial(c, r, root, k)
  {
    hide BurialClean, DevicesClean, Opening;
    if BurialsClean(c, r, i) {
      assert FirstUncleanBurial(c, r, root, i);
    } else {
      var j :| 0 <= j < i && !BurialClean(c, r, j);
      LeastUncleanBurial(c, r, root, j);
    }
  }

  lemma AuthoritySpelled(c: Crypto, r: Roster, root: Blob)
    ensures HasApprover(c, r) <==> Approved(c, r)
    ensures RolesAgree(c, r) <==> FlaggedRightly(c, r)
    ensures CertsVerify(c, r) <==> CertsSigned(c, r)
    ensures CertsChain(c, r, root) <==> AllChain(c, r, root)
    ensures SignedByApprover(c, r) <==> ByApprover(c, r)
    ensures DocumentVerifies(c, r) <==> c.verifies(r.signerSignPk, RosterSignedBytes(r), r.signature)
  {
    hide RosterSignedBytes, CertSignedBytes, Chains;
    assert forall i :: 0 <= i < |r.devices| ==> (Approves(c, r, i) <==> IsApprover(c, r, i));
    assert forall i :: 0 <= i < |r.devices| ==> (CertVerifies(c, r.devices[i]) <==> CertSigned(c, r.devices[i]));
  }

  lemma OpeningSpelled(c: Crypto, r: Roster, root: Blob)
    ensures HeaderShaped(r, root) <==> HeaderSpelled(r, root)
    ensures DeviceAdd(DeviceCount(r)).Refused? <==> |r.devices| % 0x1_0000_0000 > 16
  {
  }

  /** The verdict is the one the document calls for, and no other. */
  lemma JudgedExactly(c: Crypto, r: Roster, root: Blob, verdict: Option<Rejection>)
    ensures Verdict(c, r, root) == verdict <==> Judged(c, r, root, verdict)
  {
    OpeningSpelled(c, r, root);
    hide HeaderShaped, HeaderSpelled, DeviceAdd, DeviceCount;
    if !Opening(c, r, root) {
    } else {
      DeviceScanSpelled(c, r, root);
      if !DevicesClean(c, r, |r.devices|) {
        JudgedAtDevice(c, r, root, verdict);
      } else {
        TombstoneScanSpelled(c, r, root);
        if !BurialsClean(c, r, |r.tombstones|) {
          JudgedAtBurial(c, r, root, verdict);
        } else {
          JudgedOnAuthority(c, r, root, verdict);
        }
      }
    }
  }

  lemma JudgedAtDevice(c: Crypto, r: Roster, root: Blob, verdict: Option<Rejection>)
    requires Opening(c, r, root) && !DevicesClean(c, r, |r.devices|) && Verdict(c, r, root) == FirstDeviceFault(c, r, 0)
    requires FirstDeviceFault(c, r, 0).Some? && exists i: nat :: FirstUnclean(c, r, root, i)
    requires forall i: nat :: FirstUnclean(c, r, root, i) ==> FirstDeviceFault(c, r, 0) == DeviceFault(c, r, i)
    ensures Verdict(c, r, root) == verdict <==> Judged(c, r, root, verdict)
  {
    hide Verdict, FirstDeviceFault, DeviceFault, CertSpelled, Reserved, HeaderSpelled, FirstUnclean;
    var k: nat :| FirstUnclean(c, r, root, k);
    OneUnclean(c, r, root, k);
    DeviceFaultSpelled(c, r, k);
  }

  lemma OneUnclean(c: Crypto, r: Roster, root: Blob, k: nat)
    requires FirstUnclean(c, r, root, k)
    ensures HeaderSpelled(r, root) && c.userId(root) == r.personId && k < |r.devices|
    ensures forall i: nat :: FirstUnclean(c, r, root, i) <==> i == k
  {
    hide DeviceClean;
  }

  lemma JudgedAtBurial(c: Crypto, r: Roster, root: Blob, verdict: Option<Rejection>)
    requires Opening(c, r, root) && DevicesClean(c, r, |r.devices|) && !BurialsClean(c, r, |r.tombstones|)
    requires Verdict(c, r, root) == FirstTombstoneFault(c, r, 0)
    requires FirstTombstoneFault(c, r, 0).Some? && exists i: nat :: FirstUncleanBurial(c, r, root, i)
    requires forall i: nat :: FirstUncleanBurial(c, r, root, i) ==>
               FirstTombstoneFault(c, r, 0) == TombstoneFault(c, r, i)
    ensures Verdict(c, r, root) == verdict <==> Judged(c, r, root, verdict)
  {
    hide Verdict, FirstTombstoneFault, TombstoneFault, CertSpelled, Reserved, HeaderSpelled;
    hide FirstUncleanBurial, DeviceClean, BurialClean;
    var k: nat :| FirstUncleanBurial(c, r, root, k);
    OneUncleanBurial(c, r, root, k);
    TombstoneFaultSpelled(c, r, k);
  }

  lemma OneUncleanBurial(c: Crypto, r: Roster, root: Blob, k: nat)
    requires FirstUncleanBurial(c, r, root, k)
    ensures HeaderSpelled(r, root) && c.userId(root) == r.personId && k < |r.tombstones|
    ensures forall i: nat :: FirstUncleanBurial(c, r, root, i) <==> i == k
  {
    hide BurialClean, DevicesClean;
  }

  lemma JudgedOnAuthority(c: Crypto, r: Roster, root: Blob, verdict: Option<Rejection>)
    requires Contents(c, r, root) && Verdict(c, r, root) == AuthorityFault(c, r, root)
    ensures Verdict(c, r, root) == verdict <==> Judged(c, r, root, verdict)
  {
    hide Verdict, HasApprover, RolesAgree, CertsVerify, CertsChain, SignedByApprover, DocumentVerifies;
    hide Approved, FlaggedRightly, CertsSigned, ByApprover, DeviceClean, BurialClean, HeaderSpelled, Chains;
    AuthoritySpelled(c, r, root);
  }

  /** So a roster is accepted by `validate` exactly when it is valid. */
  lemma ValidIffNoRejection(c: Crypto, r: Roster, root: Blob)
    ensures Verdict(c, r, root).None? <==> ValidRoster(c, r, root)
  {
    JudgedExactly(c, r, root, None);
    hide Verdict, ValidRoster;
  }

  /** Device ids are distinct once the scan found every device clean. */
  ghost predicate DistinctDevices(c: Crypto, r: Roster) {
    forall i, j :: 0 <= i < j < |r.devices| ==> DeviceId(c, r.devices[i]) != DeviceId(c, r.devices[j])
  }

  lemma DistinctFromFaults(c: Crypto, r: Roster)
    requires forall i :: 0 <= i < |r.devices| ==> DeviceFault(c, r, i).None?
    ensures DistinctDevices(c, r)
  {
    forall i, j | 0 <= i < j < |r.devices| ensures DeviceId(c, r.devices[i]) != DeviceId(c, r.devices[j]) {
      assert DeviceFault(c, r, j).None?;
    }
  }

  /** No device of a valid roster is buried in it. */
  lemma BuriedApart(c: Crypto, r: Roster, root: Blob)
    requires ValidRoster(c, r, root)
    ensures TombstoneIds(r) !! ActiveIds(c, r)
  {
    hide Chains, RosterSignedBytes, CertSignedBytes;
    forall id | id in TombstoneIds(r) ensures id !in ActiveIds(c, r) {
      var i :| 0 <= i < |r.tombstones| && r.tombstones[i].deviceId == id;
      assert BurialClean(c, r, i);
    }
  }

  // ---- The code as it runs ----

  /** The device scan, growing `device_ids` as it goes. */
  method ScanDevices(c: Crypto, r: Roster) returns (fault: Option<Rejection>, ids: seq<Blob>)
    ensures fault == FirstDeviceFault(c, r, 0)
    ensures fault.None? ==> |ids| == |r.devices|
                            && forall j :: 0 <= j < |ids| ==> ids[j] == DeviceId(c, r.devices[j])
  {
    ids := [];
    for i := 0 to |r.devices|
      invariant |ids| == i && forall j :: 0 <= j < i ==> ids[j] == DeviceId(c, r.devices[j])
      invariant FirstDeviceFault(c, r, 0) == FirstDeviceFault(c, r, i)
    {
      var cert := r.devices[i];
      if !CertShaped(cert) { return Some(MalformedField), ids; }
      if cert.personId != r.personId { return Some(PersonMismatch), ids; }
      var id := c.userId(cert.deviceSignPk);
      if id == LEGACY_DEVICE_ID { return Some(ReservedDeviceId), ids; }
      if id in ids { return Some(DuplicateDevice), ids; }
      ids := ids + [id];
    }
    fault := None;
  }

  method ScanTombstones(c: Crypto, r: Roster, deviceIds: seq<Blob>) returns (fault: Option<Rejection>)
    requires |deviceIds| == |r.devices|
    requires forall j :: 0 <= j < |deviceIds| ==> deviceIds[j] == DeviceId(c, r.devices[j])
    ensures fault == FirstTombstoneFault(c, r, 0)
  {
    var ids := [];
    for i := 0 to |r.tombstones|
      invariant |ids| == i && forall j :: 0 <= j < i ==> ids[j] == r.tombstones[j].deviceId
      invariant FirstTombstoneFault(c, r, 0) == FirstTombstoneFault(c, r, i)
    {
      var id := r.tombstones[i].deviceId;
      if |id| != DEVICE_ID_LEN { return Some(MalformedField); }
      if id in ids { return Some(DuplicateDevice); }
      if id in deviceIds { return Some(TombstonedDeviceActive); }
      ids := ids + [id];
    }
    fault := None;
  }

  /** The approver's position, the role flags and the certificate signatures. */
  method CheckApprover(c: Crypto, r: Roster, ids: seq<Blob>) returns (fault: Option<Rejection>, approver: nat)
    requires |ids| == |r.devices| && DistinctDevices(c, r)
    requires forall j :: 0 <= j < |ids| ==> ids[j] == DeviceId(c, r.devices[j])
    ensures fault == if !HasApprover(c, r) then Some(ApprovingDeviceMissing)
                     else if !RolesAgree(c, r) then Some(ApprovingRoleMismatch)
                     else if !CertsVerify(c, r) then Some(CertSignatureInvalid) else None
    ensures fault.None? ==> approver < |r.devices| && Approves(c, r, approver)
  {
    approver := 0;
    while approver < |ids| && ids[approver] != r.approvingDeviceId
      invariant approver <= |ids|
      invariant forall j :: 0 <= j < approver ==> !Approves(c, r, j)
    {
      approver := approver + 1;
    }
    if approver == |ids| { return Some(ApprovingDeviceMissing), approver; }
    assert Approves(c, r, approver);
    assert forall j :: 0 <= j < |r.devices| ==> (Approves(c, r, j) <==> j == approver);
    for i := 0 to |r.devices|
      invariant forall j :: 0 <= j < i ==> (HoldsSigningRole(r.devices[j]) <==> Approves(c, r, j))
    {
      if HoldsSigningRole(r.devices[i]) != (i == approver) {
        assert HasApprover(c, r) && !RolesAgree(c, r);
        return Some(ApprovingRoleMismatch), approver;
      }
    }
    for i := 0 to |r.devices|
      invariant forall j :: 0 <= j < i ==> CertVerifies(c, r.devices[j])
    {
      if !c.verifies(r.devices[i].signerSignPk, CertSignedBytes(r.devices[i]), r.devices[i].signature) {
        return Some(CertSignatureInvalid), approver;
      }
    }
    fault := None;
  }

  /** With one approver, the document's signer is theirs or nobody's. */
  lemma ApproverSigns(c: Crypto, r: Roster, approver: nat)
    requires DistinctDevices(c, r) && approver < |r.devices| && Approves(c, r, approver)
    ensures SignedByApprover(c, r) <==> r.signerSignPk == r.devices[approver].deviceSignPk
  {
  }

  method CheckAuthority(c: Crypto, r: Roster, root: Blob, ids: seq<Blob>) returns (fault: Option<Rejection>)
    requires |ids| == |r.devices| && DistinctDevices(c, r)
    requires forall j :: 0 <= j < |ids| ==> ids[j] == DeviceId(c, r.devices[j])
    ensures fault == AuthorityFault(c, r, root)
  {
    hide HasApprover, RolesAgree, CertsVerify, SignedByApprover, Approves;
    var approver;
    fault, approver := CheckApprover(c, r, ids);
    if fault.Some? { return; }
    ApproverSigns(c, r, approver);
    var vouched := VouchFixpoint(c, r.devices, root);
    if false in vouched { return Some(ChainBroken); }
    var signedByRoot := r.signerSignPk == root;
    var signedByApprover := r.signerSignPk == r.devices[approver].deviceSignPk;
    if !signedByRoot && !signedByApprover { return Some(SignerNotAuthorized); }
    if r.seqNo == 0 && !signedByRoot { return Some(GenesisNotRootSigned); }
    var signed := BuildRosterSignedBytes(r);
    if !c.verifies(r.signerSignPk, signed, r.signature) { return Some(SignatureInvalid); }
  }

  method Validate(c: Crypto, r: Roster, root: Blob) returns (fault: Option<Rejection>)
    ensures fault == Verdict(c, r, root)
  {
    hide AuthorityFault, HeaderShaped, DistinctDevices;
    if !HeaderShaped(r, root) { return Some(MalformedField); }
    if c.userId(root) != r.personId { return Some(PersonMismatch); }
    if DeviceAdd(DeviceCount(r)).Refused? { return Some(DeviceCapExceeded); }
    var ids;
    fault, ids := ScanDevices(c, r);
    if fault.Some? { return; }
    fault := ScanTombstones(c, r, ids);
    if fault.Some? { return; }
    NoDeviceFault(c, r, 0);
    DistinctFromFaults(c, r);
    fault := CheckAuthority(c, r, root, ids);
  }
}
