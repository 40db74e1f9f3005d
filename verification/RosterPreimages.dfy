/** The bytes device signatures cover, and why no two different things a device
    can sign share them (core/src/device_roster.rs:344-574). Each layout is
    written with the bytes that follow it, so that equal strings can be peeled
    one field at a time. */
module RosterPreimages {
  import opened Bytes
  import opened Roster

  datatype SigningDomain =
    | DeviceCertDomain
    | RosterUpdateDomain
    | MessageAuthoring
    | SyncRecord
    | DeviceLinkActivation
    | DeviceLinkBootstrap
    | LanOwnDeviceProof

  function DomainSeparator(d: SigningDomain): Blob {
    match d
    case DeviceCertDomain => Ascii("CruiseMesh device certificate v1\0")
    case RosterUpdateDomain => Ascii("CruiseMesh device roster v1\0")
    case MessageAuthoring => Ascii("CruiseMesh device message authoring v1\0")
    case SyncRecord => Ascii("CruiseMesh device sync record v1\0")
    case DeviceLinkActivation => Ascii("CruiseMesh device link activation v1\0")
    case DeviceLinkBootstrap => Ascii("CruiseMesh device link bootstrap v1\0")
    case LanOwnDeviceProof => Ascii("CruiseMesh LAN own device proof v1\0")
  }

  function CertBody(cert: DeviceCert, tail: Blob): Blob {
    Framed(cert.personId, 8)
    + (Framed(cert.deviceSignPk, 8)
       + (Framed(cert.deviceAgreePk, 8)
          + (BigEndian(cert.addedEpoch, 8)
             + (BigEndian(cert.flags, 4)
                + (Framed(cert.signerSignPk, 8) + tail)))))
  }

  /** A certificate as a roster commits to it: body and signature, framed whole. */
  function CertWhole(cert: DeviceCert): Blob {
    CertBody(cert, Framed(cert.signature, 8))
  }

  function CertList(certs: seq<DeviceCert>, tail: Blob): Blob {
    if certs == [] then tail
    else Framed(CertWhole(certs[0]), 8) + CertList(certs[1..], tail)
  }

  function TombstoneList(ts: seq<Tombstone>, tail: Blob): Blob {
    if ts == [] then tail
    else Framed(ts[0].deviceId, 8) + (BigEndian(ts[0].revokedAtSeq, 8) + TombstoneList(ts[1..], tail))
  }

  function RosterTail(r: Roster): Blob {
    Framed(r.approvingDeviceId, 8) + (BigEndian(r.inboxKeyGeneration, 8) + Framed(r.signerSignPk, 8))
  }

  function TombstonesAndTail(r: Roster): Blob {
    BigEndian(|r.tombstones|, 8) + TombstoneList(r.tombstones, RosterTail(r))
  }

  function RosterBody(r: Roster): Blob {
    Framed(r.personId, 8)
    + (BigEndian(r.recoveryEpoch, 8)
       + (BigEndian(r.seqNo, 8)
          + (BigEndian(|r.devices|, 8) + CertList(r.devices, TombstonesAndTail(r)))))
  }

  function RosterSignedBytes(r: Roster): Blob {
    DomainSeparator(RosterUpdateDomain) + RosterBody(r)
  }

  function CertSignedBytes(cert: DeviceCert): Blob {
    DomainSeparator(DeviceCertDomain) + CertBody(cert, [])
  }

  function HeadHash(c: Crypto, r: Roster): Blob {
    c.digest(Ascii("CruiseMesh device roster head v1\0") + RosterSignedBytes(r))
  }

  /** Everything the core ever hands to a device signing key. */
  datatype Preimage =
    | Raw(domain: SigningDomain, message: Blob)
    | OfCert(cert: DeviceCert)
    | OfRoster(roster: Roster)

  function SignedBytes(p: Preimage): Blob {
    match p
    case Raw(domain, message) => DomainSeparator(domain) + Framed(message, 8)
    case OfCert(cert) => CertSignedBytes(cert)
    case OfRoster(roster) => RosterSignedBytes(roster)
  }

  /** What the signature is about: everything but the signature field itself. */
  function Covered(p: Preimage): Preimage {
    match p
    case Raw(_, _) => p
    case OfCert(cert) => OfCert(cert.(signature := []))
    case OfRoster(roster) => OfRoster(roster.(signature := []))
  }

  /** A byte vector's length is a 64-bit `usize`. */
  predicate Short(b: Blob) {
    |b| < 0x1_0000_0000_0000_0000
  }

  predicate CertFits(cert: DeviceCert) {
    Short(cert.personId) && Short(cert.deviceSignPk) && Short(cert.deviceAgreePk)
    && Short(cert.signerSignPk) && Short(cert.signature) && Short(CertWhole(cert))
  }

  predicate RosterFits(r: Roster) {
    && Short(r.personId) && Short(r.approvingDeviceId) && Short(r.signerSignPk)
    && |r.devices| < 0x1_0000_0000_0000_0000 && |r.tombstones| < 0x1_0000_0000_0000_0000
    && (forall i :: 0 <= i < |r.devices| ==> CertFits(r.devices[i]))
    && (forall i :: 0 <= i < |r.tombstones| ==> Short(r.tombstones[i].deviceId))
  }

  predicate Fits(p: Preimage) {
    match p
    case Raw(_, message) => Short(message)
    case OfCert(cert) => CertFits(cert)
    case OfRoster(roster) => RosterFits(roster)
  }

  // ---- The layouts, field by field ----

  /** Where each field of a certificate stands, every length in eight bytes. */
  lemma CertBodyLaidOut(cert: DeviceCert, tail: Blob)
    ensures var s := CertBody(cert, tail);
            var p := 8 + |cert.personId|;
            var k := p + 8 + |cert.deviceSignPk|;
            var a := k + 8 + |cert.deviceAgreePk|;
            && At(s, 0, BigEndian(|cert.personId|, 8)) && At(s, 8, cert.personId)
            && At(s, p, BigEndian(|cert.deviceSignPk|, 8)) && At(s, p + 8, cert.deviceSignPk)
            && At(s, k, BigEndian(|cert.deviceAgreePk|, 8)) && At(s, k + 8, cert.deviceAgreePk)
            && At(s, a, BigEndian(cert.addedEpoch, 8)) && At(s, a + 8, BigEndian(cert.flags, 4))
            && At(s, a + 12, BigEndian(|cert.signerSignPk|, 8)) && At(s, a + 20, cert.signerSignPk)
            && At(s, a + 20 + |cert.signerSignPk|, tail)
  {
    hide At, BigEndian, Framed;
    var s := CertBody(cert, tail);
    var p := 8 + |cert.personId|;
    var k := p + 8 + |cert.deviceSignPk|;
    var a := k + 8 + |cert.deviceAgreePk|;
    var s5 := Framed(cert.signerSignPk, 8) + tail;
    var s4 := BigEndian(cert.flags, 4) + s5;
    var s3 := BigEndian(cert.addedEpoch, 8) + s4;
    var s2 := Framed(cert.deviceAgreePk, 8) + s3;
    AtWhole(s);
    FramedAtWithin(s, 0, cert.personId, 8, Framed(cert.deviceSignPk, 8) + s2);
    FramedAtWithin(s, p, cert.deviceSignPk, 8, s2);
    FramedAtWithin(s, k, cert.deviceAgreePk, 8, s3);
    FieldAtWithin(s, a, BigEndian(cert.addedEpoch, 8), s4);
    FieldAtWithin(s, a + 8, BigEndian(cert.flags, 4), s5);
    FramedAtWithin(s, a + 12, cert.signerSignPk, 8, tail);
  }

  /** Certificates in document order, each behind its length, signature last. */
  lemma CertListLaidOut(certs: seq<DeviceCert>, tail: Blob)
    requires certs != []
    ensures var s, first := CertList(certs, tail), CertBody(certs[0], Framed(certs[0].signature, 8));
            At(s, 0, BigEndian(|first|, 8)) && At(s, 8, first) && At(s, 8 + |first|, CertList(certs[1..], tail))
  {
    var s := CertList(certs, tail);
    hide At, BigEndian, CertBody;
    AtWhole(s);
    FramedAtWithin(s, 0, CertWhole(certs[0]), 8, CertList(certs[1..], tail));
  }

  lemma TombstoneListLaidOut(ts: seq<Tombstone>, tail: Blob)
    requires ts != []
    ensures var s, n := TombstoneList(ts, tail), |ts[0].deviceId|;
            && At(s, 0, BigEndian(n, 8)) && At(s, 8, ts[0].deviceId)
            && At(s, 8 + n, BigEndian(ts[0].revokedAtSeq, 8)) && At(s, 16 + n, TombstoneList(ts[1..], tail))
  {
    var s, rest := TombstoneList(ts, tail), TombstoneList(ts[1..], tail);
    hide At, BigEndian;
    AtWhole(s);
    FramedAtWithin(s, 0, ts[0].deviceId, 8, BigEndian(ts[0].revokedAtSeq, 8) + rest);
    FieldAtWithin(s, 8 + |ts[0].deviceId|, BigEndian(ts[0].revokedAtSeq, 8), rest);
  }

  lemma RosterContext()
    ensures DomainSeparator(RosterUpdateDomain) == Ascii("CruiseMesh device roster v1\0")
    ensures |DomainSeparator(RosterUpdateDomain)| == 28
  {
  }

  /** Where the roster's own fields stand: 28 bytes of context, the header, the two
      lists behind their counts, and the closing fields. */
  lemma RosterLaidOut(r: Roster)
    ensures var s, closing := RosterSignedBytes(r), RosterTail(r);
            var buried := BigEndian(|r.tombstones|, 8) + TombstoneList(r.tombstones, closing);
            var p, a := 36 + |r.personId|, 8 + |r.approvingDeviceId|;
            && At(s, 0, Ascii("CruiseMesh device roster v1\0"))
            && At(s, 28, BigEndian(|r.personId|, 8)) && At(s, 36, r.personId)
            && At(s, p, BigEndian(r.recoveryEpoch, 8)) && At(s, p + 8, BigEndian(r.seqNo, 8))
            && At(s, p + 16, BigEndian(|r.devices|, 8)) && At(s, p + 24, CertList(r.devices, buried))
            && At(closing, 0, BigEndian(|r.approvingDeviceId|, 8)) && At(closing, 8, r.approvingDeviceId)
            && At(closing, a, BigEndian(r.inboxKeyGeneration, 8))
            && At(closing, a + 8, BigEndian(|r.signerSignPk|, 8)) && At(closing, a + 16, r.signerSignPk)
  {
    hide At, BigEndian, CertList, TombstoneList, Ascii, DomainSeparator;
    RosterContext();
    var s, closing := RosterSignedBytes(r), RosterTail(r);
    var p, a := 36 + |r.personId|, 8 + |r.approvingDeviceId|;
    var s4 := CertList(r.devices, TombstonesAndTail(r));
    var s3 := BigEndian(|r.devices|, 8) + s4;
    var s2 := BigEndian(r.seqNo, 8) + s3;
    var s1 := BigEndian(r.recoveryEpoch, 8) + s2;
    assert Framed(r.signerSignPk, 8) + [] == Framed(r.signerSignPk, 8);
    AtWhole(s);
    FieldAtWithin(s, 0, DomainSeparator(RosterUpdateDomain), RosterBody(r));
    FramedAtWithin(s, 28, r.personId, 8, s1);
    FieldAtWithin(s, p, BigEndian(r.recoveryEpoch, 8), s2);
    FieldAtWithin(s, p + 8, BigEndian(r.seqNo, 8), s3);
    FieldAtWithin(s, p + 16, BigEndian(|r.devices|, 8), s4);
    AtWhole(closing);
    FramedAtWithin(closing, 0, r.approvingDeviceId, 8, BigEndian(r.inboxKeyGeneration, 8) + Framed(r.signerSignPk, 8));
    FieldAtWithin(closing, a, BigEndian(r.inboxKeyGeneration, 8), Framed(r.signerSignPk, 8));
    FramedAtWithin(closing, a + 8, r.signerSignPk, 8, []);
  }

  /** A certificate's and a raw message's context, and what follows it. */
  lemma PreimagesLaidOut(cert: DeviceCert, domain: SigningDomain, message: Blob)
    ensures SignedBytes(OfCert(cert)) == Ascii("CruiseMesh device certificate v1\0") + CertBody(cert, [])
    ensures SignedBytes(Raw(domain, message)) == DomainSeparator(domain) + (BigEndian(|message|, 8) + message)
  {
  }

  /** Three positions at which the context strings differ. */
  function Marks(d: SigningDomain): (char, char, char) {
    match d
    case DeviceCertDomain => ('d', 'c', 'f')
    case RosterUpdateDomain => ('d', 'r', 'r')
    case MessageAuthoring => ('d', 'm', 'g')
    case SyncRecord => ('d', 's', 'r')
    case DeviceLinkActivation => ('d', 'l', 'a')
    case DeviceLinkBootstrap => ('d', 'l', 'b')
    case LanOwnDeviceProof => ('L', ' ', 'c')
  }

  lemma SeparatorMarks(d: SigningDomain)
    ensures var x := DomainSeparator(d);
            |x| > 23 && x[11] == Marks(d).0 as int && x[18] == Marks(d).1 as int && x[23] == Marks(d).2 as int
  {
  }

  /** No context string is a prefix of another, so the domain can be read back. */
  lemma DomainsSeparate(d: SigningDomain, s: Blob, e: SigningDomain, t: Blob)
    requires DomainSeparator(d) + s == DomainSeparator(e) + t
    ensures d == e && s == t
  {
    var x, y := DomainSeparator(d), DomainSeparator(e);
    SeparatorMarks(d);
    SeparatorMarks(e);
    assert x[11] == (x + s)[11] == (y + t)[11] == y[11];
    assert x[18] == (x + s)[18] == (y + t)[18] == y[18];
    assert x[23] == (x + s)[23] == (y + t)[23] == y[23];
    assert d == e;
    assert s == (x + s)[|x|..] == (y + t)[|y|..] == t;
  }

  lemma CertBodyCancels(a: DeviceCert, s: Blob, b: DeviceCert, t: Blob)
    requires CertFits(a) && CertFits(b)
    requires CertBody(a, s) == CertBody(b, t)
    ensures a.(signature := []) == b.(signature := []) && s == t
  {
    Widths();
    var a5, b5 := Framed(a.signerSignPk, 8) + s, Framed(b.signerSignPk, 8) + t;
    var a4, b4 := BigEndian(a.flags, 4) + a5, BigEndian(b.flags, 4) + b5;
    var a3, b3 := BigEndian(a.addedEpoch, 8) + a4, BigEndian(b.addedEpoch, 8) + b4;
    var a2, b2 := Framed(a.deviceAgreePk, 8) + a3, Framed(b.deviceAgreePk, 8) + b3;
    var a1, b1 := Framed(a.deviceSignPk, 8) + a2, Framed(b.deviceSignPk, 8) + b2;
    FrameCancels(a.personId, a1, b.personId, b1, 8);
    FrameCancels(a.deviceSignPk, a2, b.deviceSignPk, b2, 8);
    FrameCancels(a.deviceAgreePk, a3, b.deviceAgreePk, b3, 8);
    IntCancels(a.addedEpoch, a4, b.addedEpoch, b4, 8);
    IntCancels(a.flags, a5, b.flags, b5, 4);
    FrameCancels(a.signerSignPk, s, b.signerSignPk, t, 8);
  }

  lemma CertWholeInjective(a: DeviceCert, b: DeviceCert)
    requires CertFits(a) && CertFits(b)
    requires CertWhole(a) == CertWhole(b)
    ensures a == b
  {
    CertBodyCancels(a, Framed(a.signature, 8), b, Framed(b.signature, 8));
    Widths();
    assert Framed(a.signature, 8) + [] == Framed(a.signature, 8);
    assert Framed(b.signature, 8) + [] == Framed(b.signature, 8);
    FrameCancels(a.signature, [], b.signature, [], 8);
  }

  lemma {:induction false} CertListCancels(xs: seq<DeviceCert>, s: Blob, ys: seq<DeviceCert>, t: Blob)
    requires |xs| == |ys|
    requires forall i :: 0 <= i < |xs| ==> CertFits(xs[i]) && CertFits(ys[i])
    requires CertList(xs, s) == CertList(ys, t)
    ensures xs == ys && s == t
  {
    if xs == [] {
    } else {
      Widths();
      FrameCancels(CertWhole(xs[0]), CertList(xs[1..], s), CertWhole(ys[0]), CertList(ys[1..], t), 8);
      CertWholeInjective(xs[0], ys[0]);
      CertListCancels(xs[1..], s, ys[1..], t);
      assert xs == [xs[0]] + xs[1..] && ys == [ys[0]] + ys[1..];
    }
  }

  lemma {:induction false} TombstoneListCancels(xs: seq<Tombstone>, s: Blob, ys: seq<Tombstone>, t: Blob)
    requires |xs| == |ys|
    requires forall i :: 0 <= i < |xs| ==> Short(xs[i].deviceId) && Short(ys[i].deviceId)
    requires TombstoneList(xs, s) == TombstoneList(ys, t)
    ensures xs == ys && s == t
  {
    if xs == [] {
    } else {
      Widths();
      var x1, y1 := TombstoneList(xs[1..], s), TombstoneList(ys[1..], t);
      FrameCancels(xs[0].deviceId, BigEndian(xs[0].revokedAtSeq, 8) + x1,
                   ys[0].deviceId, BigEndian(ys[0].revokedAtSeq, 8) + y1, 8);
      IntCancels(xs[0].revokedAtSeq, x1, ys[0].revokedAtSeq, y1, 8);
      TombstoneListCancels(xs[1..], s, ys[1..], t);
      assert xs == [xs[0]] + xs[1..] && ys == [ys[0]] + ys[1..];
    }
  }

  lemma RosterTailInjective(a: Roster, b: Roster)
    requires RosterFits(a) && RosterFits(b)
    requires RosterTail(a) == RosterTail(b)
    ensures a.approvingDeviceId == b.approvingDeviceId
    ensures a.inboxKeyGeneration == b.inboxKeyGeneration
    ensures a.signerSignPk == b.signerSignPk
  {
    Widths();
    var a2, b2 := Framed(a.signerSignPk, 8), Framed(b.signerSignPk, 8);
    FrameCancels(a.approvingDeviceId, BigEndian(a.inboxKeyGeneration, 8) + a2,
                 b.approvingDeviceId, BigEndian(b.inboxKeyGeneration, 8) + b2, 8);
    IntCancels(a.inboxKeyGeneration, a2, b.inboxKeyGeneration, b2, 8);
    assert a2 + [] == a2 && b2 + [] == b2;
    FrameCancels(a.signerSignPk, [], b.signerSignPk, [], 8);
  }

  lemma RosterBodyInjective(a: Roster, b: Roster)
    requires RosterFits(a) && RosterFits(b)
    requires RosterBody(a) == RosterBody(b)
    ensures a.(signature := []) == b.(signature := [])
  {
    Widths();
    var a4, b4 := CertList(a.devices, TombstonesAndTail(a)), CertList(b.devices, TombstonesAndTail(b));
    var a3, b3 := BigEndian(|a.devices|, 8) + a4, BigEndian(|b.devices|, 8) + b4;
    var a2, b2 := BigEndian(a.seqNo, 8) + a3, BigEndian(b.seqNo, 8) + b3;
    var a1, b1 := BigEndian(a.recoveryEpoch, 8) + a2, BigEndian(b.recoveryEpoch, 8) + b2;
    FrameCancels(a.personId, a1, b.personId, b1, 8);
    IntCancels(a.recoveryEpoch, a2, b.recoveryEpoch, b2, 8);
    IntCancels(a.seqNo, a3, b.seqNo, b3, 8);
    IntCancels(|a.devices|, a4, |b.devices|, b4, 8);
    CertListCancels(a.devices, TombstonesAndTail(a), b.devices, TombstonesAndTail(b));
    IntCancels(|a.tombstones|, TombstoneList(a.tombstones, RosterTail(a)),
               |b.tombstones|, TombstoneList(b.tombstones, RosterTail(b)), 8);
    TombstoneListCancels(a.tombstones, RosterTail(a), b.tombstones, RosterTail(b));
    RosterTailInjective(a, b);
  }

  /** A raw message and a certificate or roster never agree, even when the raw
      message is signed in the certificate or roster domain: the first length
      prefix fixes where a raw pre-image ends, and the documents go on. */
  lemma RawNeverDocument(m: Blob, first: Blob, rest: Blob)
    requires Short(m) && Short(first)
    requires rest != []
    ensures Framed(m, 8) != Framed(first, 8) + rest
  {
    Widths();
    if Framed(m, 8) == Framed(first, 8) + rest {
      assert Framed(m, 8) + [] == Framed(m, 8);
      FrameCancels(m, [], first, rest, 8);
    }
  }

  /** The domain a pre-image is signed in, and the bytes after its separator. */
  function DomainOf(p: Preimage): SigningDomain {
    match p
    case Raw(domain, _) => domain
    case OfCert(_) => DeviceCertDomain
    case OfRoster(_) => RosterUpdateDomain
  }

  function BodyOf(p: Preimage): Blob {
    match p
    case Raw(_, message) => Framed(message, 8)
    case OfCert(cert) => CertBody(cert, [])
    case OfRoster(roster) => RosterBody(roster)
  }

  lemma SameFamily(p: Preimage, q: Preimage)
    requires Fits(p) && Fits(q)
    requires DomainOf(p) == DomainOf(q) && BodyOf(p) == BodyOf(q)
    ensures p.Raw? == q.Raw?
  {
    var doc, raw := if p.Raw? then q else p, if p.Raw? then p else q;
    if raw.Raw? && doc.OfCert? {
      var cert := doc.cert;
      RawNeverDocument(raw.message, cert.personId,
        Framed(cert.deviceSignPk, 8) + (Framed(cert.deviceAgreePk, 8) + (BigEndian(cert.addedEpoch, 8)
          + (BigEndian(cert.flags, 4) + (Framed(cert.signerSignPk, 8) + [])))));
    } else if raw.Raw? && doc.OfRoster? {
      var r := doc.roster;
      RawNeverDocument(raw.message, r.personId,
        BigEndian(r.recoveryEpoch, 8) + (BigEndian(r.seqNo, 8)
          + (BigEndian(|r.devices|, 8) + CertList(r.devices, TombstonesAndTail(r)))));
    }
  }

  /** Equal signed bytes: same family, same domain, same covered fields. */
  lemma PreimagesInjective(p: Preimage, q: Preimage)
    requires Fits(p) && Fits(q)
    requires SignedBytes(p) == SignedBytes(q)
    ensures Covered(p) == Covered(q)
  {
    DomainsSeparate(DomainOf(p), BodyOf(p), DomainOf(q), BodyOf(q));
    SameFamily(p, q);
    Widths();
    match p {
      case Raw(_, m) =>
        assert Framed(m, 8) + [] == Framed(m, 8);
        assert Framed(q.message, 8) + [] == Framed(q.message, 8);
        FrameCancels(m, [], q.message, [], 8);
      case OfCert(a) => CertBodyCancels(a, [], q.cert, []);
      case OfRoster(a) => RosterBodyInjective(a, q.roster);
    }
  }

  /** The certificate loop of `roster_signed_bytes`. */
  method PushCerts(start: Blob, certs: seq<DeviceCert>, ghost tail: Blob) returns (out: Blob)
    ensures out + tail == start + CertList(certs, tail)
  {
    out := start;
    var i := 0;
    while i < |certs|
      invariant 0 <= i <= |certs|
      invariant out + CertList(certs[i..], tail) == start + CertList(certs, tail)
    {
      assert certs[i..][1..] == certs[i + 1..];
      var framed := Framed(CertWhole(certs[i]), 8);
      Pushed(out, framed, CertList(certs[i + 1..], tail));
      out := out + framed;
      i := i + 1;
    }
  }

  /** The tombstone loop of `roster_signed_bytes`. */
  method PushTombstones(start: Blob, ts: seq<Tombstone>, ghost tail: Blob) returns (out: Blob)
    ensures out + tail == start + TombstoneList(ts, tail)
  {
    out := start;
    var i := 0;
    while i < |ts|
      invariant 0 <= i <= |ts|
      invariant out + TombstoneList(ts[i..], tail) == start + TombstoneList(ts, tail)
    {
      assert ts[i..][1..] == ts[i + 1..];
      var id, at := Framed(ts[i].deviceId, 8), BigEndian(ts[i].revokedAtSeq, 8);
      Pushed(out, id, at + TombstoneList(ts[i + 1..], tail));
      Pushed(out + id, at, TombstoneList(ts[i + 1..], tail));
      out := out + id + at;
      i := i + 1;
    }
  }

  /** `roster_signed_bytes`: the buffer pushed field by field. */
  method BuildRosterSignedBytes(r: Roster) returns (out: Blob)
    ensures out == RosterSignedBytes(r)
  {
    ghost var tail := TombstonesAndTail(r);
    out := DomainSeparator(RosterUpdateDomain) + Framed(r.personId, 8) + BigEndian(r.recoveryEpoch, 8)
      + BigEndian(r.seqNo, 8) + BigEndian(|r.devices|, 8);
    PushedFive(DomainSeparator(RosterUpdateDomain), Framed(r.personId, 8), BigEndian(r.recoveryEpoch, 8),
               BigEndian(r.seqNo, 8), BigEndian(|r.devices|, 8), CertList(r.devices, tail));
    out := PushCerts(out, r.devices, tail);
    ghost var list := TombstoneList(r.tombstones, RosterTail(r));
    Pushed(out, BigEndian(|r.tombstones|, 8), list);
    out := out + BigEndian(|r.tombstones|, 8);
    out := PushTombstones(out, r.tombstones, RosterTail(r));
    Pushed(out + Framed(r.approvingDeviceId, 8), BigEndian(r.inboxKeyGeneration, 8), Framed(r.signerSignPk, 8));
    Pushed(out, Framed(r.approvingDeviceId, 8), BigEndian(r.inboxKeyGeneration, 8) + Framed(r.signerSignPk, 8));
    out := out + Framed(r.approvingDeviceId, 8) + BigEndian(r.inboxKeyGeneration, 8) + Framed(r.signerSignPk, 8);
  }
}
