/** The device roster document and the cryptography it is judged with
    (core/src/device_roster.rs). */
module Roster {
  import opened Bytes

  const DEVICE_ID_LEN := 16
  const KEY_LEN := 32
  const SIGNATURE_LEN := 64
  const DEVICE_SOFT_CAP := 8
  const DEVICE_HARD_CAP := 16
  const ROSTER_MAX_VERSION_JUMP := 1_000_000

  /** The reserved all-zero stream id. */
  const LEGACY_DEVICE_ID: Blob := [0, 0, 0, 0, 0, 0, 0, 0, 0, 0, 0, 0, 0, 0, 0, 0]

  datatype DeviceCert = DeviceCert(
    personId: Blob,
    deviceSignPk: Blob,
    deviceAgreePk: Blob,
    addedEpoch: u64,
    flags: u32,
    signerSignPk: Blob,
    signature: Blob)

  datatype Tombstone = Tombstone(deviceId: Blob, revokedAtSeq: u64)

  datatype Roster = Roster(
    personId: Blob,
    recoveryEpoch: u64,
    seqNo: u64,
    devices: seq<DeviceCert>,
    tombstones: seq<Tombstone>,
    approvingDeviceId: Blob,
    inboxKeyGeneration: u64,
    signerSignPk: Blob,
    signature: Blob)

  /** The library primitives, as arbitrary total functions: `derive_user_id`,
      the digest behind `roster_head_hash`, and `verify_raw`. Every theorem holds
      for every choice of them unless it names what it needs. */
  datatype Crypto = Crypto(
    userId: Blob -> Blob,
    digest: Blob -> Blob,
    verifies: (Blob, Blob, Blob) -> bool)

  function DeviceId(c: Crypto, cert: DeviceCert): Blob {
    c.userId(cert.deviceSignPk)
  }

  ghost function ActiveIds(c: Crypto, r: Roster): set<Blob> {
    set i | 0 <= i < |r.devices| :: c.userId(r.devices[i].deviceSignPk)
  }

  ghost function TombstoneIds(r: Roster): set<Blob> {
    set i | 0 <= i < |r.tombstones| :: r.tombstones[i].deviceId
  }

  /** The `(recovery_epoch, seq)` order, strict. */
  predicate VersionBelow(a: Roster, b: Roster) {
    a.recoveryEpoch < b.recoveryEpoch || (a.recoveryEpoch == b.recoveryEpoch && a.seqNo < b.seqNo)
  }

  predicate SameVersion(a: Roster, b: Roster) {
    a.recoveryEpoch == b.recoveryEpoch && a.seqNo == b.seqNo
  }

  datatype DeviceAddOutcome = Added | AddedWithWarning | Refused

  function DeviceAdd(resultingDeviceCount: nat): DeviceAddOutcome {
    if resultingDeviceCount > DEVICE_HARD_CAP then Refused
    else if resultingDeviceCount > DEVICE_SOFT_CAP then AddedWithWarning
    else Added
  }
}
