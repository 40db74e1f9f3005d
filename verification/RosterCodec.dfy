/** The roster wire codec (core/src/device_roster.rs:642-813): a layout, its
    reader, and the proof that each undoes the other exactly. */
module RosterCodec {
  import opened Bytes
  import opened Roster

  const ROSTER_WIRE_VERSION: byte := 1

  // The layout. As in the signing layouts, each part is written with what follows it.

  function WireCert(cert: DeviceCert, tail: Blob): Blob {
    Framed(cert.personId, 2)
    + (Framed(cert.deviceSignPk, 2)
       + (Framed(cert.deviceAgreePk, 2)
          + (BigEndian(cert.addedEpoch, 8)
             + (BigEndian(cert.flags, 4)
                + (Framed(cert.signerSignPk, 2) + (Framed(cert.signature, 2) + tail))))))
  }

  function WireTombstone(t: Tombstone, tail: Blob): Blob {
    Framed(t.deviceId, 2) + (BigEndian(t.revokedAtSeq, 8) + tail)
  }

  /** The fields before the certificates, with their count. */
  datatype Header = Header(personId: Blob, recoveryEpoch: u64, seqNo: u64, deviceCount: u16)

  /** The fields after the tombstones. */
  datatype Closing = Closing(
    approvingDeviceId: Blob, inboxKeyGeneration: u64, signerSignPk: Blob, signature: Blob)

  function WireHeader(h: Header, tail: Blob): Blob {
    [ROSTER_WIRE_VERSION]
    + (Framed(h.personId, 2)
       + (BigEndian(h.recoveryEpoch, 8)
          + (BigEndian(h.seqNo, 8) + (BigEndian(h.deviceCount, 2) + tail))))
  }

  function WireClosing(c: Closing, tail: Blob): Blob {
    Framed(c.approvingDeviceId, 2)
    + (BigEndian(c.inboxKeyGeneration, 8)
       + (Framed(c.signerSignPk, 2) + (Framed(c.signature, 2) + tail)))
  }

  function HeaderOf(r: Roster): Header
    requires |r.devices| < 0x1_0000
  {
    Header(r.personId, r.recoveryEpoch, r.seqNo, |r.devices|)
  }

  function ClosingOf(r: Roster): Closing {
    Closing(r.approvingDeviceId, r.inboxKeyGeneration, r.signerSignPk, r.signature)
  }

  function WireBuried(r: Roster): Blob {
    BigEndian(|r.tombstones|, 2) + WriteList(WireTombstone, r.tombstones, WireClosing(ClosingOf(r), []))
  }

  function Wire(r: Roster): Blob
    requires |r.devices| < 0x1_0000
  {
    WireHeader(HeaderOf(r), WriteList(WireCert, r.devices, WireBuried(r)))
  }

  // Where each field stands, every length in two bytes.

  lemma WireCertLaidOut(cert: DeviceCert, tail: Blob)
    ensures var s := WireCert(cert, tail);
            var p := 2 + |cert.personId|;
            var k := p + 2 + |cert.deviceSignPk|;
            var a := k + 2 + |cert.deviceAgreePk|;
            var g := a + 14 + |cert.signerSignPk|;
            && At(s, 0, BigEndian(|cert.personId|, 2)) && At(s, 2, cert.personId)
            && At(s, p, BigEndian(|cert.deviceSignPk|, 2)) && At(s, p + 2, cert.deviceSignPk)
            && At(s, k, BigEndian(|cert.deviceAgreePk|, 2)) && At(s, k + 2, cert.deviceAgreePk)
            && At(s, a, BigEndian(cert.addedEpoch, 8)) && At(s, a + 8, BigEndian(cert.flags, 4))
            && At(s, a + 12, BigEndian(|cert.signerSignPk|, 2)) && At(s, a + 14, cert.signerSignPk)
            && At(s, g, BigEndian(|cert.signature|, 2)) && At(s, g + 2, cert.signature)
            && At(s, g + 2 + |cert.signature|, tail)
  {
    hide At, BigEndian, Framed;
    var s := WireCert(cert, tail);
    var p := 2 + |cert.personId|;
    var k := p + 2 + |cert.deviceSignPk|;
    var a := k + 2 + |cert.deviceAgreePk|;
    var g := a + 14 + |cert.signerSignPk|;
    var s6 := Framed(cert.signature, 2) + tail;
    var s5 := Framed(cert.signerSignPk, 2) + s6;
    var s4 := BigEndian(cert.flags, 4) + s5;
    var s3 := BigEndian(cert.addedEpoch, 8) + s4;
    var s2 := Framed(cert.deviceAgreePk, 2) + s3;
    AtWhole(s);
    FramedAtWithin(s, 0, cert.personId, 2, Framed(cert.deviceSignPk, 2) + s2);
    FramedAtWithin(s, p, cert.deviceSignPk, 2, s2);
    FramedAtWithin(s, k, cert.deviceAgreePk, 2, s3);
    FieldAtWithin(s, a, BigEndian(cert.addedEpoch, 8), s4);
    FieldAtWithin(s, a + 8, BigEndian(cert.flags, 4), s5);
    FramedAtWithin(s, a + 12, cert.signerSignPk, 2, s6);
    FramedAtWithin(s, g, cert.signature, 2, tail);
  }

  /** One version byte, the header, the certificates, the burials behind their count,
      and the closing fields; each list in document order. */
  lemma WireLaidOut(r: Roster)
    requires |r.devices| < 0x1_0000
    ensures var s := Wire(r);
            var buried := WriteList(WireTombstone, r.tombstones, WireClosing(ClosingOf(r), []));
            var p := 3 + |r.personId|;
            && At(s, 0, [1]) && At(s, 1, BigEndian(|r.personId|, 2)) && At(s, 3, r.personId)
            && At(s, p, BigEndian(r.recoveryEpoch, 8)) && At(s, p + 8, BigEndian(r.seqNo, 8))
            && At(s, p + 16, BigEndian(|r.devices|, 2))
            && At(s, p + 18, WriteList(WireCert, r.devices, BigEndian(|r.tombstones|, 2) + buried))
  {
    var s := Wire(r);
    var p := 3 + |r.personId|;
    var s4 := WriteList(WireCert, r.devices, WireBuried(r));
    var s3 := BigEndian(|r.devices|, 2) + s4;
    var s2 := BigEndian(r.seqNo, 8) + s3;
    var s1 := BigEndian(r.recoveryEpoch, 8) + s2;
    hide At, BigEndian, WriteList, Framed;
    AtWhole(s);
    FieldAtWithin(s, 0, [1], Framed(r.personId, 2) + s1);
    FramedAtWithin(s, 1, r.personId, 2, s1);
    FieldAtWithin(s, p, BigEndian(r.recoveryEpoch, 8), s2);
    FieldAtWithin(s, p + 8, BigEndian(r.seqNo, 8), s3);
    FieldAtWithin(s, p + 16, BigEndian(|r.devices|, 2), s4);
  }

  lemma WireEndLaidOut(r: Roster, t: Tombstone, tail: Blob)
    ensures var s, closing := WireTombstone(t, tail), WireClosing(ClosingOf(r), []);
            var a := 2 + |r.approvingDeviceId|;
            var g := a + 10 + |r.signerSignPk|;
            && At(s, 0, BigEndian(|t.deviceId|, 2)) && At(s, 2, t.deviceId)
            && At(s, 2 + |t.deviceId|, BigEndian(t.revokedAtSeq, 8)) && At(s, 10 + |t.deviceId|, tail)
            && At(closing, 0, BigEndian(|r.approvingDeviceId|, 2)) && At(closing, 2, r.approvingDeviceId)
            && At(closing, a, BigEndian(r.inboxKeyGeneration, 8))
            && At(closing, a + 8, BigEndian(|r.signerSignPk|, 2)) && At(closing, a + 10, r.signerSignPk)
            && At(closing, g, BigEndian(|r.signature|, 2)) && At(closing, g + 2, r.signature)
  {
    hide At, BigEndian, Framed;
    var s, closing := WireTombstone(t, tail), WireClosing(ClosingOf(r), []);
    var a := 2 + |r.approvingDeviceId|;
    var g := a + 10 + |r.signerSignPk|;
    AtWhole(s);
    FramedAtWithin(s, 0, t.deviceId, 2, BigEndian(t.revokedAtSeq, 8) + tail);
    FieldAtWithin(s, 2 + |t.deviceId|, BigEndian(t.revokedAtSeq, 8), tail);
    AtWhole(closing);
    var c2 := Framed(r.signature, 2) + [];
    var c1 := Framed(r.signerSignPk, 2) + c2;
    FramedAtWithin(closing, 0, r.approvingDeviceId, 2, BigEndian(r.inboxKeyGeneration, 8) + c1);
    FieldAtWithin(closing, a, BigEndian(r.inboxKeyGeneration, 8), c1);
    FramedAtWithin(closing, a + 8, r.signerSignPk, 2, c2);
    FramedAtWithin(closing, g, r.signature, 2, []);
  }

  /** Encoding fails exactly when some length or count does not fit 16 bits. */
  lemma EncodableSpelled(r: Roster)
    ensures Encode(r).Ok? <==>
      && |r.personId| <= 65535 && |r.approvingDeviceId| <= 65535 && |r.signerSignPk| <= 65535
      && |r.signature| <= 65535 && |r.devices| <= 65535 && |r.tombstones| <= 65535
      && (forall cert :: cert in r.devices ==>
            && |cert.personId| <= 65535 && |cert.deviceSignPk| <= 65535 && |cert.deviceAgreePk| <= 65535
            && |cert.signerSignPk| <= 65535 && |cert.signature| <= 65535)
      && (forall t :: t in r.tombstones ==> |t.deviceId| <= 65535)
  {
    hide Wire;
    assert forall i :: 0 <= i < |r.devices| ==> r.devices[i] in r.devices;
    assert forall i :: 0 <= i < |r.tombstones| ==> r.tombstones[i] in r.tombstones;
  }

  // What the 16-bit prefixes can carry.

  predicate Fits16(b: Blob) {
    |b| < 0x1_0000
  }

  predicate CertEncodable(cert: DeviceCert) {
    Fits16(cert.personId) && Fits16(cert.deviceSignPk) && Fits16(cert.deviceAgreePk)
    && Fits16(cert.signerSignPk) && Fits16(cert.signature)
  }

  predicate TombstoneEncodable(t: Tombstone) {
    Fits16(t.deviceId)
  }

  predicate ClosingEncodable(c: Closing) {
    Fits16(c.approvingDeviceId) && Fits16(c.signerSignPk) && Fits16(c.signature)
  }

  predicate Encodable(r: Roster) {
    && Fits16(r.personId) && ClosingEncodable(ClosingOf(r))
    && |r.devices| < 0x1_0000 && |r.tombstones| < 0x1_0000
    && (forall i :: 0 <= i < |r.devices| ==> CertEncodable(r.devices[i]))
    && (forall i :: 0 <= i < |r.tombstones| ==> TombstoneEncodable(r.tombstones[i]))
  }

  // The reader, as a function of the bytes left.

  function ReadBytes(s: Blob): (p: Parsed<Blob>)
    ensures p.Parsed? ==> Fits16(p.value)
  {
    Widths();
    ReadFrame(s, 2)
  }

  function ReadU16(s: Blob): Parsed<u16> {
    Widths();
    var (n, rest) :- ReadInt(s, 2);
    Parsed(n, rest)
  }

  function ReadU32(s: Blob): Parsed<u32> {
    Widths();
    var (n, rest) :- ReadInt(s, 4);
    Parsed(n, rest)
  }

  function ReadU64(s: Blob): Parsed<u64> {
    Widths();
    var (n, rest) :- ReadInt(s, 8);
    Parsed(n, rest)
  }

  function ReadCert(s: Blob): (p: Parsed<DeviceCert>)
    ensures p.Parsed? ==> CertEncodable(p.value)
  {
    var (personId, s1) :- ReadBytes(s);
    var (deviceSignPk, s2) :- ReadBytes(s1);
    var (deviceAgreePk, s3) :- ReadBytes(s2);
    var (addedEpoch, s4) :- ReadU64(s3);
    var (flags, s5) :- ReadU32(s4);
    var (signerSignPk, s6) :- ReadBytes(s5);
    var (signature, s7) :- ReadBytes(s6);
    Parsed(DeviceCert(personId, deviceSignPk, deviceAgreePk, addedEpoch, flags, signerSignPk, signature), s7)
  }

  function ReadTombstone(s: Blob): (p: Parsed<Tombstone>)
    ensures p.Parsed? ==> Fits16(p.value.deviceId)
  {
    var (deviceId, s1) :- ReadBytes(s);
    var (revokedAtSeq, s2) :- ReadU64(s1);
    Parsed(Tombstone(deviceId, revokedAtSeq), s2)
  }

  function ReadHeader(s: Blob): (p: Parsed<Header>)
    ensures p.Parsed? ==> Fits16(p.value.personId)
  {
    if |s| == 0 || s[0] != ROSTER_WIRE_VERSION then Truncated
    else
      var (personId, s1) :- ReadBytes(s[1..]);
      var (recoveryEpoch, s2) :- ReadU64(s1);
      var (seqNo, s3) :- ReadU64(s2);
      var (deviceCount, s4) :- ReadU16(s3);
      Parsed(Header(personId, recoveryEpoch, seqNo, deviceCount), s4)
  }

  function ReadClosing(s: Blob): (p: Parsed<Closing>)
    ensures p.Parsed? ==> ClosingEncodable(p.value)
  {
    var (approvingDeviceId, s1) :- ReadBytes(s);
    var (inboxKeyGeneration, s2) :- ReadU64(s1);
    var (signerSignPk, s3) :- ReadBytes(s2);
    var (signature, s4) :- ReadBytes(s3);
    Parsed(Closing(approvingDeviceId, inboxKeyGeneration, signerSignPk, signature), s4)
  }

  function Assemble(h: Header, devices: seq<DeviceCert>, tombstones: seq<Tombstone>, c: Closing): Roster {
    Roster(h.personId, h.recoveryEpoch, h.seqNo, devices, tombstones,
           c.approvingDeviceId, c.inboxKeyGeneration, c.signerSignPk, c.signature)
  }

  function ReadRoster(s: Blob): Parsed<Roster> {
    var (header, s1) :- ReadHeader(s);
    var (devices, s2) :- ReadList(ReadCert, s1, header.deviceCount);
    var (tombstoneCount, s3) :- ReadU16(s2);
    var (tombstones, s4) :- ReadList(ReadTombstone, s3, tombstoneCount);
    var (closing, s5) :- ReadClosing(s4);
    Parsed(Assemble(header, devices, tombstones, closing), s5)
  }

  /** Trailing bytes are an error. */
  function Decode(s: Blob): Result<Roster> {
    var p := ReadRoster(s);
    if p.Parsed? && p.rest == [] then Ok(p.value) else Malformed
  }

  function Encode(r: Roster): Result<Blob> {
    if Encodable(r) then Ok(Wire(r)) else Malformed
  }

  // Each reader inverts its layout.

  lemma BytesInvert(s: Blob, b: Blob, rest: Blob)
    requires Fits16(b)
    ensures ReadBytes(s) == Parsed(b, rest) <==> s == Framed(b, 2) + rest
  {
    Widths();
    ReadFrameInverts(s, 2, b, rest);
  }

  lemma U64Inverts(s: Blob, n: u64, rest: Blob)
    ensures ReadU64(s) == Parsed(n, rest) <==> s == BigEndian(n, 8) + rest
  {
    Widths();
    ReadIntInverts(s, 8, n, rest);
  }

  lemma U16Inverts(s: Blob, n: u16, rest: Blob)
    ensures ReadU16(s) == Parsed(n, rest) <==> s == BigEndian(n, 2) + rest
  {
    Widths();
    ReadIntInverts(s, 2, n, rest);
  }

  lemma U32Inverts(s: Blob, n: u32, rest: Blob)
    ensures ReadU32(s) == Parsed(n, rest) <==> s == BigEndian(n, 4) + rest
  {
    Widths();
    ReadIntInverts(s, 4, n, rest);
  }

  lemma CertReads(cert: DeviceCert, rest: Blob)
    requires CertEncodable(cert)
    ensures ReadCert(WireCert(cert, rest)) == Parsed(cert, rest)
  {
    var s6 := Framed(cert.signature, 2) + rest;
    var s5 := Framed(cert.signerSignPk, 2) + s6;
    var s4 := BigEndian(cert.flags, 4) + s5;
    var s3 := BigEndian(cert.addedEpoch, 8) + s4;
    var s2 := Framed(cert.deviceAgreePk, 2) + s3;
    var s1 := Framed(cert.deviceSignPk, 2) + s2;
    BytesInvert(WireCert(cert, rest), cert.personId, s1);
    BytesInvert(s1, cert.deviceSignPk, s2);
    BytesInvert(s2, cert.deviceAgreePk, s3);
    U64Inverts(s3, cert.addedEpoch, s4);
    U32Inverts(s4, cert.flags, s5);
    BytesInvert(s5, cert.signerSignPk, s6);
    BytesInvert(s6, cert.signature, rest);
  }

  lemma CertWrites(s: Blob)
    requires ReadCert(s).Parsed?
    ensures s == WireCert(ReadCert(s).value, ReadCert(s).rest)
  {
    var cert, rest := ReadCert(s).value, ReadCert(s).rest;
    var s1 := ReadBytes(s).rest;
    var s2 := ReadBytes(s1).rest;
    var s3 := ReadBytes(s2).rest;
    var s4 := ReadU64(s3).rest;
    var s5 := ReadU32(s4).rest;
    var s6 := ReadBytes(s5).rest;
    BytesInvert(s, cert.personId, s1);
    BytesInvert(s1, cert.deviceSignPk, s2);
    BytesInvert(s2, cert.deviceAgreePk, s3);
    U64Inverts(s3, cert.addedEpoch, s4);
    U32Inverts(s4, cert.flags, s5);
    BytesInvert(s5, cert.signerSignPk, s6);
    BytesInvert(s6, cert.signature, rest);
  }

  lemma CertsInvert()
    ensures ReadsBack(ReadCert, WireCert, CertEncodable)
    ensures ReadsOnlyWritten(ReadCert, WireCert, CertEncodable)
  {
    forall cert, rest | CertEncodable(cert) ensures ReadCert(WireCert(cert, rest)) == Parsed(cert, rest) {
      CertReads(cert, rest);
    }
    forall s: Blob | ReadCert(s).Parsed?
      ensures CertEncodable(ReadCert(s).value) && s == WireCert(ReadCert(s).value, ReadCert(s).rest)
    {
      CertWrites(s);
    }
  }

  lemma TombstoneInverts(s: Blob, t: Tombstone, rest: Blob)
    requires TombstoneEncodable(t)
    ensures ReadTombstone(s) == Parsed(t, rest) <==> s == WireTombstone(t, rest)
  {
    var s1 := BigEndian(t.revokedAtSeq, 8) + rest;
    BytesInvert(s, t.deviceId, s1);
    U64Inverts(s1, t.revokedAtSeq, rest);
    if ReadTombstone(s) == Parsed(t, rest) {
      U64Inverts(ReadBytes(s).rest, t.revokedAtSeq, rest);
    }
  }

  lemma TombstonesInvert()
    ensures ReadsBack(ReadTombstone, WireTombstone, TombstoneEncodable)
    ensures ReadsOnlyWritten(ReadTombstone, WireTombstone, TombstoneEncodable)
  {
    forall t, rest | TombstoneEncodable(t)
      ensures ReadTombstone(WireTombstone(t, rest)) == Parsed(t, rest)
    {
      TombstoneInverts(WireTombstone(t, rest), t, rest);
    }
    forall s: Blob | ReadTombstone(s).Parsed?
      ensures TombstoneEncodable(ReadTombstone(s).value)
      ensures s == WireTombstone(ReadTombstone(s).value, ReadTombstone(s).rest)
    {
      TombstoneInverts(s, ReadTombstone(s).value, ReadTombstone(s).rest);
    }
  }

  lemma HeaderReads(h: Header, rest: Blob)
    requires Fits16(h.personId)
    ensures ReadHeader(WireHeader(h, rest)) == Parsed(h, rest)
  {
    var s3 := BigEndian(h.deviceCount, 2) + rest;
    var s2 := BigEndian(h.seqNo, 8) + s3;
    var s1 := BigEndian(h.recoveryEpoch, 8) + s2;
    var s := WireHeader(h, rest);
    assert s[1..] == Framed(h.personId, 2) + s1;
    BytesInvert(s[1..], h.personId, s1);
    U64Inverts(s1, h.recoveryEpoch, s2);
    U64Inverts(s2, h.seqNo, s3);
    U16Inverts(s3, h.deviceCount, rest);
  }

  lemma HeaderWrites(s: Blob)
    requires ReadHeader(s).Parsed?
    ensures s == WireHeader(ReadHeader(s).value, ReadHeader(s).rest)
  {
    var h, rest := ReadHeader(s).value, ReadHeader(s).rest;
    var s1 := ReadBytes(s[1..]).rest;
    var s2 := ReadU64(s1).rest;
    var s3 := ReadU64(s2).rest;
    BytesInvert(s[1..], h.personId, s1);
    U64Inverts(s1, h.recoveryEpoch, s2);
    U64Inverts(s2, h.seqNo, s3);
    U16Inverts(s3, h.deviceCount, rest);
    assert s == [s[0]] + s[1..];
  }

  lemma ClosingReads(c: Closing, rest: Blob)
    requires ClosingEncodable(c)
    ensures ReadClosing(WireClosing(c, rest)) == Parsed(c, rest)
  {
    var s3 := Framed(c.signature, 2) + rest;
    var s2 := Framed(c.signerSignPk, 2) + s3;
    var s1 := BigEndian(c.inboxKeyGeneration, 8) + s2;
    BytesInvert(WireClosing(c, rest), c.approvingDeviceId, s1);
    U64Inverts(s1, c.inboxKeyGeneration, s2);
    BytesInvert(s2, c.signerSignPk, s3);
    BytesInvert(s3, c.signature, rest);
  }

  lemma ClosingWrites(s: Blob)
    requires ReadClosing(s).Parsed?
    ensures s == WireClosing(ReadClosing(s).value, ReadClosing(s).rest)
  {
    var c, rest := ReadClosing(s).value, ReadClosing(s).rest;
    var s1 := ReadBytes(s).rest;
    var s2 := ReadU64(s1).rest;
    var s3 := ReadBytes(s2).rest;
    BytesInvert(s, c.approvingDeviceId, s1);
    U64Inverts(s1, c.inboxKeyGeneration, s2);
    BytesInvert(s2, c.signerSignPk, s3);
    BytesInvert(s3, c.signature, rest);
  }

  lemma RosterReads(r: Roster)
    requires Encodable(r)
    ensures ReadRoster(Wire(r)) == Parsed(r, [])
  {
    var closing := WireClosing(ClosingOf(r), []);
    HeaderReads(HeaderOf(r), WriteList(WireCert, r.devices, WireBuried(r)));
    CertsInvert();
    ListReadsBack(ReadCert, WireCert, CertEncodable, r.devices, WireBuried(r));
    U16Inverts(WireBuried(r), |r.tombstones|, WriteList(WireTombstone, r.tombstones, closing));
    TombstonesInvert();
    ListReadsBack(ReadTombstone, WireTombstone, TombstoneEncodable, r.tombstones, closing);
    ClosingReads(ClosingOf(r), []);
  }

  lemma RosterWrites(s: Blob)
    requires ReadRoster(s).Parsed? && ReadRoster(s).rest == []
    ensures Encodable(ReadRoster(s).value) && s == Wire(ReadRoster(s).value)
  {
    var p1 := ReadHeader(s);
    HeaderWrites(s);
    var p2 := ReadList(ReadCert, p1.rest, p1.value.deviceCount);
    CertsInvert();
    ListReadsOnlyWritten(ReadCert, WireCert, CertEncodable, p1.rest, p1.value.deviceCount);
    var p3 := ReadU16(p2.rest);
    U16Inverts(p2.rest, p3.value, p3.rest);
    TombstonesInvert();
    ListReadsOnlyWritten(ReadTombstone, WireTombstone, TombstoneEncodable, p3.rest, p3.value);
    ClosingWrites(ReadList(ReadTombstone, p3.rest, p3.value).rest);
  }

  /** The codec is a bijection between encodable rosters and decodable bytes. */
  lemma CodecBijection(r: Roster, s: Blob)
    ensures Decode(s) == Ok(r) <==> Encode(r) == Ok(s)
  {
    if Encode(r) == Ok(s) { RosterReads(r); }
    if Decode(s) == Ok(r) { RosterWrites(s); }
  }

  // The code as it runs: a cursor that moves, and a buffer that grows.

  /** A cursor method returned what the reader returns on the bytes that were left. */
  ghost predicate Took<T>(r: Result<T>, p: Parsed<T>, rest: Blob) {
    match p
    case Parsed(v, s) => r == Ok(v) && rest == s
    case Truncated => r == Malformed
  }

  class RosterCursor {
    const data: Blob
    var pos: nat

    ghost predicate Valid()
      reads this
    {
      pos <= |data|
    }

    ghost function Rest(): Blob
      requires Valid()
      reads this
    {
      data[pos..]
    }

    constructor (bytes: Blob)
      ensures Valid() && Rest() == bytes
    {
      data := bytes;
      pos := 0;
    }

    method Take(n: nat) returns (r: Result<Blob>)
      requires Valid()
      modifies this
      ensures Valid()
      ensures r.Ok? <==> n <= |old(Rest())|
      ensures r.Ok? ==> r.value == old(Rest())[..n] && Rest() == old(Rest())[n..]
      ensures r.Malformed? ==> pos == old(pos)
    {
      if pos + n > |data| { return Malformed; }
      r := Ok(data[pos..pos + n]);
      pos := pos + n;
    }

    method TakeU16() returns (r: Result<u16>)
      requires Valid()
      modifies this
      ensures Valid() && Took(r, ReadU16(old(Rest())), Rest())
    {
      var s :- Take(2);
      Widths();
      r := Ok(FromBigEndian(s));
    }

    method TakeU32() returns (r: Result<u32>)
      requires Valid()
      modifies this
      ensures Valid() && Took(r, ReadU32(old(Rest())), Rest())
    {
      var s :- Take(4);
      Widths();
      r := Ok(FromBigEndian(s));
    }

    method TakeU64() returns (r: Result<u64>)
      requires Valid()
      modifies this
      ensures Valid() && Took(r, ReadU64(old(Rest())), Rest())
    {
      var s :- Take(8);
      Widths();
      r := Ok(FromBigEndian(s));
    }

    method TakeBytes() returns (r: Result<Blob>)
      requires Valid()
      modifies this
      ensures Valid() && Took(r, ReadBytes(old(Rest())), Rest())
    {
      var n :- TakeU16();
      r := Take(n);
    }

    method TakeCert() returns (r: Result<DeviceCert>)
      requires Valid()
      modifies this
      ensures Valid() && Took(r, ReadCert(old(Rest())), Rest())
    {
      var personId :- TakeBytes();
      var deviceSignPk :- TakeBytes();
      var deviceAgreePk :- TakeBytes();
      var addedEpoch :- TakeU64();
      var flags :- TakeU32();
      var signerSignPk :- TakeBytes();
      var signature :- TakeBytes();
      r := Ok(DeviceCert(personId, deviceSignPk, deviceAgreePk, addedEpoch, flags, signerSignPk, signature));
    }

    method TakeTombstone() returns (r: Result<Tombstone>)
      requires Valid()
      modifies this
      ensures Valid() && Took(r, ReadTombstone(old(Rest())), Rest())
    {
      var deviceId :- TakeBytes();
      var revokedAtSeq :- TakeU64();
      r := Ok(Tombstone(deviceId, revokedAtSeq));
    }

    method TakeHeader() returns (r: Result<Header>)
      requires Valid()
      modifies this
      ensures Valid() && Took(r, ReadHeader(old(Rest())), Rest())
    {
      var version :- Take(1);
      if version[0] != ROSTER_WIRE_VERSION { return Malformed; }
      var personId :- TakeBytes();
      var recoveryEpoch :- TakeU64();
      var seqNo :- TakeU64();
      var deviceCount :- TakeU16();
      r := Ok(Header(personId, recoveryEpoch, seqNo, deviceCount));
    }

    method TakeClosing() returns (r: Result<Closing>)
      requires Valid()
      modifies this
      ensures Valid() && Took(r, ReadClosing(old(Rest())), Rest())
    {
      var approvingDeviceId :- TakeBytes();
      var inboxKeyGeneration :- TakeU64();
      var signerSignPk :- TakeBytes();
      var signature :- TakeBytes();
      r := Ok(Closing(approvingDeviceId, inboxKeyGeneration, signerSignPk, signature));
    }

    method TakeCerts(n: nat) returns (r: Result<seq<DeviceCert>>)
      requires Valid()
      modifies this
      ensures Valid() && Took(r, ReadList(ReadCert, old(Rest()), n), Rest())
    {
      hide ReadCert;
      var devices: seq<DeviceCert> := [];
      ghost var whole, s := ReadList(ReadCert, Rest(), n), Rest();
      AfterEnds(ReadCert, devices, s, whole);
      for i := 0 to n
        invariant Valid() && s == Rest()
        invariant After(devices, ReadList(ReadCert, s, n - i)) == whole
      {
        ghost var p := ReadCert(s);
        AfterStep(ReadCert, devices, s, n - i, p);
        var cert :- TakeCert();
        assert p == Parsed(cert, Rest());
        devices := devices + [cert];
        s := p.rest;
      }
      AfterEnds(ReadCert, devices, s, whole);
      r := Ok(devices);
    }

    method TakeTombstones(n: nat) returns (r: Result<seq<Tombstone>>)
      requires Valid()
      modifies this
      ensures Valid() && Took(r, ReadList(ReadTombstone, old(Rest()), n), Rest())
    {
      hide ReadTombstone;
      var tombstones: seq<Tombstone> := [];
      ghost var whole, s := ReadList(ReadTombstone, Rest(), n), Rest();
      AfterEnds(ReadTombstone, tombstones, s, whole);
      for i := 0 to n
        invariant Valid() && s == Rest()
        invariant After(tombstones, ReadList(ReadTombstone, s, n - i)) == whole
      {
        ghost var p := ReadTombstone(s);
        AfterStep(ReadTombstone, tombstones, s, n - i, p);
        var tombstone :- TakeTombstone();
        assert p == Parsed(tombstone, Rest());
        tombstones := tombstones + [tombstone];
        s := p.rest;
      }
      AfterEnds(ReadTombstone, tombstones, s, whole);
      r := Ok(tombstones);
    }
  }

  /** Items already read, put before those still to come. */
  ghost function After<T>(done: seq<T>, p: Parsed<seq<T>>): Parsed<seq<T>> {
    if p.Truncated? then Truncated else Parsed(done + p.value, p.rest)
  }

  lemma AfterEnds<T>(read: Blob -> Parsed<T>, done: seq<T>, s: Blob, p: Parsed<seq<T>>)
    ensures After([], p) == p
    ensures After(done, ReadList(read, s, 0)) == Parsed(done, s)
  {
    if p.Parsed? { assert [] + p.value == p.value; }
    assert done + [] == done;
  }

  lemma AfterStep<T>(read: Blob -> Parsed<T>, done: seq<T>, s: Blob, n: nat, p: Parsed<T>)
    requires n > 0 && p == read(s)
    ensures After(done, ReadList(read, s, n))
         == if p.Truncated? then Truncated else After(done + [p.value], ReadList(read, p.rest, n - 1))
  {
    if p.Parsed? && ReadList(read, p.rest, n - 1).Parsed? {
      var xs := ReadList(read, p.rest, n - 1).value;
      assert done + ([p.value] + xs) == done + [p.value] + xs;
    }
  }

  /** `core_decode_roster`. */
  method DecodeRoster(bytes: Blob) returns (r: Result<Roster>)
    ensures r == Decode(bytes)
  {
    var cursor := new RosterCursor(bytes);
    var header :- cursor.TakeHeader();
    var devices :- cursor.TakeCerts(header.deviceCount);
    var tombstoneCount :- cursor.TakeU16();
    var tombstones :- cursor.TakeTombstones(tombstoneCount);
    var closing :- cursor.TakeClosing();
    if cursor.pos != |cursor.data| { return Malformed; }
    r := Ok(Assemble(header, devices, tombstones, closing));
  }

  method PushWireBytes(out: Blob, b: Blob) returns (r: Result<Blob>)
    ensures r == if Fits16(b) then Ok(out + Framed(b, 2)) else Malformed
  {
    if |b| > 0xFFFF { return Malformed; }
    r := Ok(out + BigEndian(|b|, 2) + b);
    Pushed(out, BigEndian(|b|, 2), b);
  }

  lemma PushedCert(s: Blob, a: Blob, b: Blob, c: Blob, d: Blob, e: Blob, f: Blob, g: Blob, tail: Blob)
    ensures s + a + b + c + d + e + f + g + tail == s + (a + (b + (c + (d + (e + (f + (g + tail)))))))
  {
    Pushed(s + a + b + c + d + e + f, g, tail);
    Pushed(s + a + b + c + d + e, f, g + tail);
    Pushed(s + a + b + c + d, e, f + (g + tail));
    Pushed(s + a + b + c, d, e + (f + (g + tail)));
    Pushed(s + a + b, c, d + (e + (f + (g + tail))));
    Pushed(s + a, b, c + (d + (e + (f + (g + tail)))));
    Pushed(s, a, b + (c + (d + (e + (f + (g + tail))))));
  }

  method PushCert(start: Blob, cert: DeviceCert, ghost tail: Blob) returns (r: Result<Blob>)
    ensures r.Ok? <==> CertEncodable(cert)
    ensures r.Ok? ==> r.value + tail == start + WireCert(cert, tail)
  {
    var out :- PushWireBytes(start, cert.personId);
    out :- PushWireBytes(out, cert.deviceSignPk);
    out :- PushWireBytes(out, cert.deviceAgreePk);
    out := out + BigEndian(cert.addedEpoch, 8);
    out := out + BigEndian(cert.flags, 4);
    out :- PushWireBytes(out, cert.signerSignPk);
    out :- PushWireBytes(out, cert.signature);
    PushedCert(start, Framed(cert.personId, 2), Framed(cert.deviceSignPk, 2), Framed(cert.deviceAgreePk, 2),
               BigEndian(cert.addedEpoch, 8), BigEndian(cert.flags, 4), Framed(cert.signerSignPk, 2),
               Framed(cert.signature, 2), tail);
    r := Ok(out);
  }

  method PushCerts(start: Blob, certs: seq<DeviceCert>, ghost tail: Blob) returns (r: Result<Blob>)
    ensures r.Ok? <==> forall i :: 0 <= i < |certs| ==> CertEncodable(certs[i])
    ensures r.Ok? ==> r.value + tail == start + WriteList(WireCert, certs, tail)
  {
    var out := start;
    for i := 0 to |certs|
      invariant forall j :: 0 <= j < i ==> CertEncodable(certs[j])
      invariant out + WriteList(WireCert, certs[i..], tail) == start + WriteList(WireCert, certs, tail)
    {
      assert certs[i..][1..] == certs[i + 1..];
      out :- PushCert(out, certs[i], WriteList(WireCert, certs[i + 1..], tail));
    }
    r := Ok(out);
  }

  method PushTombstones(start: Blob, ts: seq<Tombstone>, ghost tail: Blob) returns (r: Result<Blob>)
    ensures r.Ok? <==> forall i :: 0 <= i < |ts| ==> TombstoneEncodable(ts[i])
    ensures r.Ok? ==> r.value + tail == start + WriteList(WireTombstone, ts, tail)
  {
    var out := start;
    for i := 0 to |ts|
      invariant forall j :: 0 <= j < i ==> TombstoneEncodable(ts[j])
      invariant out + WriteList(WireTombstone, ts[i..], tail) == start + WriteList(WireTombstone, ts, tail)
    {
      assert ts[i..][1..] == ts[i + 1..];
      var pushed :- PushWireBytes(out, ts[i].deviceId);
      ghost var at, rest := BigEndian(ts[i].revokedAtSeq, 8), WriteList(WireTombstone, ts[i + 1..], tail);
      Pushed(pushed, at, rest);
      Pushed(out, Framed(ts[i].deviceId, 2), at + rest);
      out := pushed + BigEndian(ts[i].revokedAtSeq, 8);
    }
    r := Ok(out);
  }

  lemma PushedClosing(s: Blob, a: Blob, b: Blob, c: Blob, d: Blob)
    ensures s + a + b + c + d == s + (a + (b + (c + (d + []))))
  {
    assert d + [] == d;
    Pushed(s + a + b, c, d);
    Pushed(s + a, b, c + d);
    Pushed(s, a, b + (c + d));
  }

  /** `core_encode_roster`. */
  method EncodeRoster(r: Roster) returns (res: Result<Blob>)
    ensures res == Encode(r)
  {
    var out :- PushWireBytes([ROSTER_WIRE_VERSION], r.personId);
    out := out + BigEndian(r.recoveryEpoch, 8);
    out := out + BigEndian(r.seqNo, 8);
    if |r.devices| > 0xFFFF { return Malformed; }
    out := out + BigEndian(|r.devices|, 2);
    ghost var certs := WriteList(WireCert, r.devices, WireBuried(r));
    PushedFive([ROSTER_WIRE_VERSION], Framed(r.personId, 2), BigEndian(r.recoveryEpoch, 8),
               BigEndian(r.seqNo, 8), BigEndian(|r.devices|, 2), certs);
    assert out + certs == Wire(r);
    out :- PushCerts(out, r.devices, WireBuried(r));
    if |r.tombstones| > 0xFFFF { return Malformed; }
    ghost var closing := WireClosing(ClosingOf(r), []);
    Pushed(out, BigEndian(|r.tombstones|, 2), WriteList(WireTombstone, r.tombstones, closing));
    out := out + BigEndian(|r.tombstones|, 2);
    out :- PushTombstones(out, r.tombstones, closing);
    assert out + closing == Wire(r);
    PushedClosing(out, Framed(r.approvingDeviceId, 2), BigEndian(r.inboxKeyGeneration, 8),
                  Framed(r.signerSignPk, 2), Framed(r.signature, 2));
    out :- PushWireBytes(out, r.approvingDeviceId);
    out := out + BigEndian(r.inboxKeyGeneration, 8);
    out :- PushWireBytes(out, r.signerSignPk);
    out :- PushWireBytes(out, r.signature);
    res := Ok(out);
  }
}
