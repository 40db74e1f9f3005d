/** Signed message bodies: what a signature covers, padding, and opening
    (core/src/crypto.rs:100-193, 302-371). */
module SignedBody {
  import opened Bytes

  const PAD_BUCKET := 256
  const SIGN_PK_LEN := 32
  const SIGNATURE_LEN := 64
  const HEAD_LEN := SIGN_PK_LEN + SIGNATURE_LEN
  const U32_SPAN := 0x1_0000_0000

  /** What a signature is bound to, beyond the payload itself. */
  datatype Binding = Legacy | Pairwise(recipientAgreePk: Blob) | Group(groupId: Blob)

  datatype OpenError = CryptoError | SignatureInvalid
  datatype Opening = Opened(senderUserId: Blob, payload: Blob) | Refused(error: OpenError)

  /** The signature scheme and the user-id hash, as arbitrary functions. */
  datatype Scheme = Scheme(
    sign: (Blob, Blob) -> Blob,
    verifies: (Blob, Blob, Blob) -> bool,
    validKey: Blob -> bool,
    userId: Blob -> Blob)

  function PairwiseDomain(): (d: Blob)
    ensures |d| == 34
  {
    Ascii("cruisemesh/sealed-body/pairwise/v2")
  }

  function GroupDomain(): (d: Blob)
    ensures |d| == 31
  {
    Ascii("cruisemesh/sealed-body/group/v2")
  }

  function Domain(b: Binding): (d: Blob)
    requires !b.Legacy?
    ensures |d| == if b.Pairwise? then 34 else 31
  {
    if b.Pairwise? then PairwiseDomain() else GroupDomain()
  }

  function Bound(b: Binding): Blob
    requires !b.Legacy?
  {
    if b.Pairwise? then b.recipientAgreePk else b.groupId
  }

  /** The bytes a signature covers; nothing when a field outgrows its u32 length. */
  function Transcript(b: Binding, pk: Blob, payload: Blob): Option<Blob> {
    if b.Legacy? then Some(payload)
    else if |Bound(b)| >= U32_SPAN || |payload| >= U32_SPAN then None
    else Some(Framed(Domain(b), 4) + (Framed(Bound(b), 4) + (pk + Framed(payload, 4))))
  }

  predicate StartsBound(payload: Blob, domain: Blob) {
    |payload| >= 4 && payload[..4] == BigEndian(|domain|, 4) && domain <= payload[4..]
  }

  /** The payloads the legacy rule refuses. */
  predicate LooksBound(payload: Blob) {
    StartsBound(payload, PairwiseDomain()) || StartsBound(payload, GroupDomain())
  }

  /** A payload that begins with the length and the text of either domain. */
  ghost predicate BeginsBound(payload: Blob) {
    || [0, 0, 0, 34] + Ascii("cruisemesh/sealed-body/pairwise/v2") <= payload
    || [0, 0, 0, 31] + Ascii("cruisemesh/sealed-body/group/v2") <= payload
  }

  lemma StartsBoundExactly(payload: Blob, domain: Blob)
    ensures StartsBound(payload, domain) <==> BigEndian(|domain|, 4) + domain <= payload
  {
    var front := BigEndian(|domain|, 4) + domain;
    if StartsBound(payload, domain) {
      assert payload == payload[..4] + payload[4..];
      assert front == payload[..|front|];
    }
    if front <= payload {
      assert payload[..4] == front[..4] && payload[4..][..|domain|] == front[4..];
    }
  }

  /** The legacy rule refuses exactly those. */
  lemma LooksBoundExactly(payload: Blob)
    ensures LooksBound(payload) <==> BeginsBound(payload)
  {
    hide StartsBound, BigEndian, Ascii;
    StartsBoundExactly(payload, PairwiseDomain());
    StartsBoundExactly(payload, GroupDomain());
    BigEndianSpelled(34);
    BigEndianSpelled(31);
  }

  /** What is signed: a legacy payload as it is; otherwise, unless a length exceeds 32
      bits, the domain and what it is bound to, each behind its length, the bare key, and
      the payload behind its length. */
  lemma TranscriptLaidOut(b: Binding, pk: Blob, payload: Blob)
    ensures b == Legacy ==> Transcript(b, pk, payload) == Some(payload)
    ensures b != Legacy ==>
              var bound := if b.Pairwise? then b.recipientAgreePk else b.groupId;
              var domain := if b.Pairwise? then Ascii("cruisemesh/sealed-body/pairwise/v2")
                            else Ascii("cruisemesh/sealed-body/group/v2");
              var n := 4 + |domain|;
              var k := n + 4 + |bound| + |pk|;
              && (Transcript(b, pk, payload).Some? <==> |bound| <= 0xFFFF_FFFF && |payload| <= 0xFFFF_FFFF)
              && (Transcript(b, pk, payload).Some? ==>
                    var t := Transcript(b, pk, payload).value;
                    && At(t, 0, BigEndian(|domain|, 4)) && At(t, 4, domain)
                    && At(t, n, BigEndian(|bound|, 4)) && At(t, n + 4, bound) && At(t, n + 4 + |bound|, pk)
                    && At(t, k, BigEndian(|payload|, 4)) && At(t, k + 4, payload) && |t| == k + 4 + |payload|)
  {
    hide At, BigEndian, Ascii;
    if b != Legacy && Transcript(b, pk, payload).Some? {
      var t, domain, bound := Transcript(b, pk, payload).value, Domain(b), Bound(b);
      var n := 4 + |domain|;
      var t2 := pk + Framed(payload, 4);
      assert Framed(payload, 4) + [] == Framed(payload, 4);
      AtWhole(t);
      FramedAtWithin(t, 0, domain, 4, Framed(bound, 4) + t2);
      FramedAtWithin(t, n, bound, 4, t2);
      FieldAtWithin(t, n + 4 + |bound|, pk, Framed(payload, 4));
      FramedAtWithin(t, n + 4 + |bound| + |pk|, payload, 4, []);
    }
  }

  method WriteFramed(out: Blob, field: Blob) returns (longer: Option<Blob>)
    ensures longer == if |field| < U32_SPAN then Some(out + Framed(field, 4)) else None
  {
    if |field| >= U32_SPAN { return None; }
    var grown := out + BigEndian(|field|, 4);
    Pushed(out, BigEndian(|field|, 4), field);
    longer := Some(grown + field);
  }

  method BuildTranscript(b: Binding, pk: Blob, payload: Blob) returns (t: Option<Blob>)
    ensures t == Transcript(b, pk, payload)
  {
    if b.Legacy? { return Some(payload); }
    var step := WriteFramed([], Domain(b));
    step := WriteFramed(step.value, Bound(b));
    if step.None? { return None; }
    var out := step.value + pk;
    t := WriteFramed(out, payload);
    if t.Some? {
      hide Framed;
      var d, f, p := Framed(Domain(b), 4), Framed(Bound(b), 4), Framed(payload, 4);
      assert [] + d == d;
      assert ((d + f) + pk) + p == d + (f + (pk + p));
    }
  }

  // ---- Padding ----

  function Reversed(s: Blob): (r: Blob)
    ensures |r| == |s|
  {
    seq(|s|, i requires 0 <= i < |s| => s[|s| - 1 - i])
  }

  function LittleEndian32(n: nat): (s: Blob)
    ensures |s| == 4
  {
    Reversed(BigEndian(n % U32_SPAN, 4))
  }

  function FromLittleEndian(s: Blob): nat {
    FromBigEndian(Reversed(s))
  }

  lemma LittleEndianReads(n: nat)
    ensures FromLittleEndian(LittleEndian32(n)) == n % U32_SPAN
  {
    Widths();
    var s := BigEndian(n % U32_SPAN, 4);
    assert Reversed(Reversed(s)) == s;
    BigEndianReads(n % U32_SPAN, 4);
  }

  function Zeros(n: nat): (s: Blob)
    ensures |s| == n && forall i :: 0 <= i < n ==> s[i] == 0
  {
    seq(n, i requires 0 <= i < n => 0)
  }

  /** The least multiple of the bucket that holds the length field and the data. */
  function PaddedLen(n: nat): nat {
    (4 + n + PAD_BUCKET - 1) / PAD_BUCKET * PAD_BUCKET
  }

  function Padded(data: Blob): Blob {
    LittleEndian32(|data|) + data + Zeros(PaddedLen(|data|) - (4 + |data|))
  }

  method PadToBucket(data: Blob) returns (out: Blob)
    ensures out == Padded(data)
  {
    out := LittleEndian32(|data|);
    out := out + data;
    var paddedLen := (|out| + PAD_BUCKET - 1) / PAD_BUCKET * PAD_BUCKET;
    var target := if paddedLen < PAD_BUCKET then PAD_BUCKET else paddedLen;
    while |out| < target
      invariant 4 + |data| <= |out| <= target
      invariant out == LittleEndian32(|data|) + data + Zeros(|out| - (4 + |data|))
    {
      assert Zeros(|out| - (4 + |data|)) + [0] == Zeros(|out| + 1 - (4 + |data|));
      out := out + [0];
    }
  }

  function Unpad(padded: Blob): Option<Blob> {
    if |padded| < 4 then None
    else
      var end := 4 + FromLittleEndian(padded[..4]);
      if end <= |padded| then Some(padded[4..end]) else None
  }

  /** The length on the wire tells only which bucket the body falls in. */
  lemma LengthTellsBucketOnly(x: Blob, y: Blob)
    ensures |Padded(x)| % 256 == 0 && |Padded(x)| - 256 < 4 + |x| <= |Padded(x)|
    ensures |Padded(x)| == |Padded(y)| <==> (|x| + 3) / 256 == (|y| + 3) / 256
  {
    assert (4 + |x| + PAD_BUCKET - 1) / PAD_BUCKET == (|x| + 3) / PAD_BUCKET + 1;
    assert (4 + |y| + PAD_BUCKET - 1) / PAD_BUCKET == (|y| + 3) / PAD_BUCKET + 1;
  }

  /** Unpadding returns the data up to the 32-bit length the prefix can carry. */
  lemma UnpadInvertsPad(data: Blob)
    ensures Unpad(Padded(data)) == Some(data[..|data| % U32_SPAN])
    ensures Unpad(Padded(data)) == Some(data) <==> |data| < U32_SPAN
  {
    LittleEndianReads(|data|);
    var padded := Padded(data);
    assert padded[..4] == LittleEndian32(|data|);
    assert padded[4..4 + |data| % U32_SPAN] == data[..|data| % U32_SPAN];
  }

  /** The number four bytes spell, least first. */
  function LeastFirst(b0: int, b1: int, b2: int, b3: int): int {
    b0 + 256 * b1 + 65536 * b2 + 16777216 * b3
  }

  lemma FourBytes(s: Blob)
    requires |s| == 4
    ensures FromBigEndian(s) == LeastFirst(s[3], s[2], s[1], s[0])
  {
    var v0, v1, v2 := Value(s, 0), Value(s, 1), Value(s, 2);
    var v3 := Value(s, 3);
    assert v0 == 0 && v1 == v0 * 256 + s[0] && v2 == v1 * 256 + s[1] && v3 == v2 * 256 + s[2];
    assert Value(s, 4) == v3 * 256 + s[3];
  }

  /** A length, and then that much of what follows. */
  lemma UnpadExactly(padded: Blob, b: Blob)
    ensures Unpad(padded) == Some(b) <==>
      && |padded| >= 4 && |b| == LeastFirst(padded[0], padded[1], padded[2], padded[3])
      && 4 + |b| <= |padded| && b == padded[4..4 + |b|]
  {
    if |padded| >= 4 {
      var s := Reversed(padded[..4]);
      assert s[0] == padded[3] && s[1] == padded[2] && s[2] == padded[1] && s[3] == padded[0];
      FourBytes(s);
    }
  }

  /** After the data, nothing but zeros up to the bucket. */
  lemma PaddedLaidOut(data: Blob)
    ensures At(Padded(data), 4, data)
    ensures forall i :: 4 + |data| <= i < |Padded(data)| ==> Padded(data)[i] == 0
  {
    var s := Padded(data);
    assert s[4..4 + |data|] == data;
  }

  // ---- Signing and opening ----

  function Body(pk: Blob, signature: Blob, payload: Blob): Blob {
    pk + signature + payload
  }

  /** A secret key of the wrong length, or an overlong field, is an error. */
  method SignAndPad(k: Scheme, signSk: Blob, signPk: Blob, b: Binding, payload: Blob) returns (r: Option<Blob>)
    ensures r.Some? <==> |signSk| == 32 && Transcript(b, signPk, payload).Some?
    ensures r.Some? ==> r.value == Signed(k, signSk, signPk, b, payload)
  {
    if |signSk| != 32 { return None; }
    var transcript := BuildTranscript(b, signPk, payload);
    if transcript.None? { return None; }
    var signature := k.sign(signSk, transcript.value);
    var body := signPk;
    body := body + signature;
    body := body + payload;
    var padded := PadToBucket(body);
    r := Some(padded);
  }

  function Signed(k: Scheme, signSk: Blob, signPk: Blob, b: Binding, payload: Blob): Blob
    requires Transcript(b, signPk, payload).Some?
  {
    Padded(Body(signPk, k.sign(signSk, Transcript(b, signPk, payload).value), payload))
  }

  function Open(k: Scheme, padded: Blob, b: Binding): Opening {
    var body := Unpad(padded);
    if body.None? || |body.value| < HEAD_LEN then Refused(CryptoError)
    else OpenBody(k, body.value[..SIGN_PK_LEN], body.value[SIGN_PK_LEN..HEAD_LEN], body.value[HEAD_LEN..], b)
  }

  function OpenBody(k: Scheme, pk: Blob, signature: Blob, payload: Blob, b: Binding): Opening {
    if b.Legacy? && LooksBound(payload) then Refused(SignatureInvalid)
    else if !k.validKey(pk) then Refused(CryptoError)
    else
      var t := Transcript(b, pk, payload);
      if t.None? then Refused(CryptoError)
      else if !k.verifies(pk, t.value, signature) then Refused(SignatureInvalid)
      else Opened(k.userId(pk), payload)
  }

  /** What opening makes of any bytes: 32 bytes of key, 64 of signature, the payload;
      which of the two errors, and what is returned. */
  lemma OpenExactly(k: Scheme, padded: Blob, b: Binding)
    ensures Unpad(padded).None? || |Unpad(padded).value| < 96 ==> Open(k, padded, b) == Refused(CryptoError)
    ensures Unpad(padded).Some? && |Unpad(padded).value| >= 96 ==>
              var body, r := Unpad(padded).value, Open(k, padded, b);
              var pk, signature, payload := body[..32], body[32..96], body[96..];
              var shut := b == Legacy && BeginsBound(payload);
              var t := Transcript(b, pk, payload);
              && (r == Refused(CryptoError) <==> !shut && (!k.validKey(pk) || t.None?))
              && (r == Opened(k.userId(pk), payload) <==>
                    !shut && k.validKey(pk) && t.Some? && k.verifies(pk, t.value, signature))
              && (r == Refused(SignatureInvalid) <==>
                    shut || (k.validKey(pk) && t.Some? && !k.verifies(pk, t.value, signature)))
  {
    if Unpad(padded).Some? && |Unpad(padded).value| >= 96 { LooksBoundExactly(Unpad(padded).value[96..]); }
    hide Unpad, LooksBound, BeginsBound, Transcript;
  }

  // ---- What a signature can stand for ----

  /** No two bound statements share a transcript. */
  lemma BoundTranscriptsInjective(b: Binding, pk: Blob, p: Blob, c: Binding, qk: Blob, q: Blob)
    requires !b.Legacy? && !c.Legacy? && |pk| == |qk|
    requires Transcript(b, pk, p).Some? && Transcript(b, pk, p) == Transcript(c, qk, q)
    ensures b == c && pk == qk && p == q
  {
    Widths();
    var s3, t3 := Framed(p, 4), Framed(q, 4);
    var s2, t2 := pk + s3, qk + t3;
    var s1, t1 := Framed(Bound(b), 4) + s2, Framed(Bound(c), 4) + t2;
    FrameCancels(Domain(b), s1, Domain(c), t1, 4);
    FrameCancels(Bound(b), s2, Bound(c), t2, 4);
    assert pk == s2[..|pk|] == t2[..|qk|] == qk;
    assert s3 == s2[|pk|..] == t2[|qk|..] == t3;
    assert s3 + [] == s3 && t3 + [] == t3;
    FrameCancels(p, [], q, [], 4);
  }

  /** A bound transcript is a payload the legacy rule refuses. */
  lemma BoundTranscriptLooksBound(b: Binding, pk: Blob, p: Blob)
    requires !b.Legacy? && Transcript(b, pk, p).Some?
    ensures LooksBound(Transcript(b, pk, p).value)
  {
    var t, d := Transcript(b, pk, p).value, Domain(b);
    assert t == BigEndian(|d|, 4) + (d + (Framed(Bound(b), 4) + (pk + Framed(p, 4))));
    assert StartsBound(t, d);
  }

  /** A statement its key holder signed. */
  datatype Statement = Statement(binding: Binding, payload: Blob)

  /** Every signature that verifies under `pk` covers something in `signed`. */
  ghost predicate Unforged(k: Scheme, pk: Blob, signed: set<Statement>) {
    forall t, signature :: k.verifies(pk, t, signature) ==> Covers(pk, signed, t)
  }

  predicate Covers(pk: Blob, signed: set<Statement>, t: Blob) {
    exists s :: s in signed && Transcript(s.binding, pk, s.payload) == Some(t)
  }

  /** Whatever opens under a key was signed by its holder under that very binding.
      The one other way a bound body can verify is that its transcript was itself
      signed as a legacy payload. */
  lemma OpenedWasSigned(k: Scheme, pk: Blob, signature: Blob, q: Blob, c: Binding, signed: set<Statement>)
    requires |pk| == SIGN_PK_LEN && Unforged(k, pk, signed) && OpenBody(k, pk, signature, q, c).Opened?
    ensures Statement(c, q) in signed
         || (!c.Legacy? && Statement(Legacy, Transcript(c, pk, q).value) in signed)
  {
    var t := Transcript(c, pk, q).value;
    assert Covers(pk, signed, t);
    var s :| s in signed && Transcript(s.binding, pk, s.payload) == Some(t);
    if !s.binding.Legacy? {
      if c.Legacy? {
        BoundTranscriptLooksBound(s.binding, pk, s.payload);
        assert false;
      } else {
        BoundTranscriptsInjective(s.binding, pk, s.payload, c, pk, q);
      }
    }
  }

  /** The signature was made over `t` and verifies for nothing else. */
  ghost predicate MadeOver(k: Scheme, pk: Blob, signature: Blob, t: Blob) {
    forall u :: k.verifies(pk, u, signature) <==> u == t
  }

  /** A bound signature, placed in any body and presented under any rule, opens
      exactly under its own binding with its own payload. */
  lemma BoundOpensExactlyThere(
      k: Scheme, pk: Blob, signature: Blob, b: Binding, p: Blob, padded: Blob, c: Binding, q: Blob)
    requires |pk| == SIGN_PK_LEN && |signature| == SIGNATURE_LEN && k.validKey(pk)
    requires !b.Legacy? && Transcript(b, pk, p).Some?
    requires MadeOver(k, pk, signature, Transcript(b, pk, p).value)
    requires Unpad(padded) == Some(Body(pk, signature, q))
    ensures Open(k, padded, c).Opened? <==> c == b && q == p
    ensures Open(k, padded, c).Opened? ==> Open(k, padded, c) == Opened(k.userId(pk), p)
  {
    OpenSplits(k, padded, c, pk, signature, q);
    var t := Transcript(c, pk, q);
    if OpenBody(k, pk, signature, q, c).Opened? {
      if c.Legacy? {
        BoundTranscriptLooksBound(b, pk, p);
        assert false;
      } else {
        BoundTranscriptsInjective(b, pk, p, c, pk, q);
      }
    }
  }

  lemma OpenSplits(k: Scheme, padded: Blob, c: Binding, pk: Blob, signature: Blob, q: Blob)
    requires |pk| == SIGN_PK_LEN && |signature| == SIGNATURE_LEN
    requires Unpad(padded) == Some(Body(pk, signature, q))
    ensures Open(k, padded, c) == OpenBody(k, pk, signature, q, c)
  {
    var body := Body(pk, signature, q);
    assert body[..SIGN_PK_LEN] == pk;
    assert body[SIGN_PK_LEN..HEAD_LEN] == signature;
    assert body[HEAD_LEN..] == q;
  }

  /** An honest key pair: its signatures are 64 bytes and verify. */
  ghost predicate KeyPair(k: Scheme, sk: Blob, pk: Blob) {
    && |pk| == SIGN_PK_LEN && k.validKey(pk)
    && forall t :: |k.sign(sk, t)| == SIGNATURE_LEN && k.verifies(pk, t, k.sign(sk, t))
  }

  /** Opening returns what was signed exactly when the body's length fits 32 bits
      and a legacy payload does not look like a bound transcript. */
  lemma SignPadOpen(k: Scheme, sk: Blob, pk: Blob, b: Binding, payload: Blob)
    requires KeyPair(k, sk, pk) && Transcript(b, pk, payload).Some?
    ensures Open(k, Signed(k, sk, pk, b, payload), b) == Opened(k.userId(pk), payload)
        <==> 96 + |payload| <= 0xFFFF_FFFF && !(b.Legacy? && BeginsBound(payload))
  {
    LooksBoundExactly(payload);
    hide LooksBound, BeginsBound;
    var signature := k.sign(sk, Transcript(b, pk, payload).value);
    var body := Body(pk, signature, payload);
    UnpadInvertsPad(body);
    if |body| < U32_SPAN {
      OpenSplits(k, Padded(body), b, pk, signature, payload);
    }
  }

  /** A scheme under which everything verifies. */
  function Lenient(): Scheme {
    Scheme((_, _) => Zeros(SIGNATURE_LEN), (_, _, _) => true, _ => true, pk => pk)
  }

  /** A bound transcript signed as a legacy payload stays shut, and so does, for its
      own sender, a body one length prefix too long. */
  lemma SignedStaysShut()
    ensures var k, sk, pk := Lenient(), Zeros(32), Zeros(SIGN_PK_LEN);
            var transcript, huge := Transcript(Group([]), pk, []).value, Zeros(U32_SPAN - HEAD_LEN);
            && KeyPair(k, sk, pk)
            && Open(k, Signed(k, sk, pk, Legacy, transcript), Legacy) != Opened(k.userId(pk), transcript)
            && Open(k, Signed(k, sk, pk, Group([]), huge), Group([])) != Opened(k.userId(pk), huge)
  {
    hide Open, Signed, LooksBound, BeginsBound, Zeros;
    var k, sk, pk := Lenient(), Zeros(32), Zeros(SIGN_PK_LEN);
    BoundTranscriptLooksBound(Group([]), pk, []);
    LooksBoundExactly(Transcript(Group([]), pk, []).value);
    SignPadOpen(k, sk, pk, Legacy, Transcript(Group([]), pk, []).value);
    SignPadOpen(k, sk, pk, Group([]), Zeros(U32_SPAN - HEAD_LEN));
  }
}
