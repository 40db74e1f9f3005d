/** Rosters that pass every check, for the results that need one to exist: one
    device, certified by the root, under cryptography that accepts everything. */
module RosterSamples {
  import opened Bytes
  import opened Roster
  import opened RosterPreimages
  import opened RosterValidation

  function Repeated(b: byte, n: nat): (s: Blob)
    ensures |s| == n && forall i :: 0 <= i < n ==> s[i] == b
  {
    seq(n, _ => b)
  }

  function RootKey(): Blob { Repeated(1, KEY_LEN) }
  function DeviceKey(): Blob { Repeated(2, KEY_LEN) }
  function SampleId(): Blob { Repeated(7, DEVICE_ID_LEN) }

  function Trusting(): Crypto {
    Crypto(_ => SampleId(), _ => [], (_, _, _) => true)
  }

  function SampleCert(): DeviceCert {
    DeviceCert(SampleId(), DeviceKey(), DeviceKey(), 0, 1, RootKey(), Repeated(3, SIGNATURE_LEN))
  }

  function SampleRoster(epoch: u64, seqNo: u64, signer: Blob): Roster {
    Roster(SampleId(), epoch, seqNo, [SampleCert()], [], SampleId(), 0, signer, Repeated(3, SIGNATURE_LEN))
  }

  lemma SampleValid(epoch: u64, seqNo: u64, signer: Blob)
    requires signer == RootKey() || (signer == DeviceKey() && seqNo > 0)
    ensures ValidRoster(Trusting(), SampleRoster(epoch, seqNo, signer), RootKey())
  {
    var c, r, root := Trusting(), SampleRoster(epoch, seqNo, signer), RootKey();
    hide RosterSignedBytes, CertSignedBytes;
    assert c.userId(DeviceKey())[0] != 0;
    assert DeviceClean(c, r, 0);
    assert IsApprover(c, r, 0);
    assert SignerPath(c, r.devices, root, [0]);
    assert Chains(c, r.devices, root, 0);
    assert Authorised(c, r, root);
  }
}
