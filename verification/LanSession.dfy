/** The record layer of the same-LAN Noise session (core/src/lan_session.rs:204-312). */
module LanSession {
  import opened Bytes
  import opened Reassembly

  const LAN_MAX_FRAME_SIZE := 1024 * 1024
  const NOISE_MAX_MESSAGE_SIZE := 65535
  const NOISE_TAG_SIZE := 16
  const RECORD_HEADER_SIZE := 9
  const RECORD_TYPE_FRAME: byte := 1
  const RECORD_CHUNK_SIZE := 60 * 1024 - RECORD_HEADER_SIZE

  /** One direction of the transport cipher: the n-th message sealed and opened. */
  datatype Channel = Channel(seal: (nat, Blob) -> Blob, open: (nat, Blob) -> Option<Blob>)

  /** Messages opened in the order they were sealed come out as they went in. */
  ghost predicate InOrder(ch: Channel) {
    forall n, p :: ch.open(n, ch.seal(n, p)) == Some(p) && |ch.seal(n, p)| == |p| + NOISE_TAG_SIZE
  }

  /** `CoreError` without its message text. */
  datatype Answer<+T> = Answered(value: T) | Failed

  function Plaintext(frameId: nat, index: nat, total: nat, chunk: Blob): Blob {
    [RECORD_TYPE_FRAME] + (BigEndian(frameId, 4) + (BigEndian(index, 2) + (BigEndian(total, 2) + chunk)))
  }

  function Parse(plaintext: Blob): Option<Piece> {
    if |plaintext| < RECORD_HEADER_SIZE || plaintext[0] != RECORD_TYPE_FRAME then None
    else
      Some(Piece(FromBigEndian(plaintext[1..5]), FromBigEndian(plaintext[5..7]), FromBigEndian(plaintext[7..9]),
                 plaintext[9..]))
  }

  lemma PlaintextParses(frameId: u32, index: nat, total: nat, chunk: Blob)
    requires index < total < 0x1_0000
    ensures Parse(Plaintext(frameId, index, total, chunk)) == Some(Piece(frameId, index, total, chunk))
  {
    Widths();
    BigEndianReads(frameId, 4);
    BigEndianReads(index, 2);
    BigEndianReads(total, 2);
    var p := Plaintext(frameId, index, total, chunk);
    assert p[1..5] == BigEndian(frameId, 4);
    assert p[5..7] == BigEndian(index, 2);
    assert p[7..9] == BigEndian(total, 2);
    assert p[9..] == chunk;
  }

  /** A type byte 1, the frame id, the index and the count, then the chunk; anything
      shorter than nine bytes or of another type is no record. */
  lemma PlaintextLaidOut(frameId: nat, index: nat, total: nat, chunk: Blob, plaintext: Blob)
    ensures var p := Plaintext(frameId, index, total, chunk);
            && At(p, 0, [1]) && At(p, 1, BigEndian(frameId, 4)) && At(p, 5, BigEndian(index, 2))
            && At(p, 7, BigEndian(total, 2)) && At(p, 9, chunk) && |p| == 9 + |chunk|
    ensures Parse(plaintext).None? <==> |plaintext| < 9 || plaintext[0] != 1
  {
    hide At, BigEndian;
    var p := Plaintext(frameId, index, total, chunk);
    var p3 := BigEndian(total, 2) + chunk;
    var p2 := BigEndian(index, 2) + p3;
    AtWhole(p);
    FieldAtWithin(p, 0, [1], BigEndian(frameId, 4) + p2);
    FieldAtWithin(p, 1, BigEndian(frameId, 4), p2);
    FieldAtWithin(p, 5, BigEndian(index, 2), p3);
    FieldAtWithin(p, 7, BigEndian(total, 2), chunk);
  }

  /** The records of one frame, sealed from message `nonce` on. */
  function Records(ch: Channel, nonce: nat, frameId: u32, frame: Blob): (s: seq<Blob>)
    ensures |s| == ChunkCount(|frame|, RECORD_CHUNK_SIZE)
  {
    var chunks := Chunks(frame, RECORD_CHUNK_SIZE);
    seq(|chunks|, i requires 0 <= i < |chunks| =>
      ch.seal(nonce + i, Plaintext(frameId, i, |chunks|, chunks[i])))
  }

  /** A frame within the limit needs at most eighteen records. */
  lemma FewRecords(frame: Blob)
    requires |frame| <= LAN_MAX_FRAME_SIZE
    ensures ChunkCount(|frame|, RECORD_CHUNK_SIZE) <= 18
  {
  }

  function NextFrameId(id: u32): u32 {
    (id + 1) % 0x1_0000_0000
  }

  /** The id goes up by one, and from the last to zero: consecutive frames differ. */
  lemma FrameIdsDiffer(id: u32)
    ensures NextFrameId(id) == (if id == 4_294_967_295 then 0 else id + 1) != id
  {
  }

  /** The i-th record seals the i-th stretch of 61,431 bytes under the frame's id. */
  lemma RecordsLaidOut(ch: Channel, nonce: nat, frameId: u32, frame: Blob, i: nat)
    requires i < |Records(ch, nonce, frameId, frame)|
    ensures var all := Records(ch, nonce, frameId, frame);
            && i * 61_431 <= |frame|
            && (i + 1 < |all| ==>
                  && (i + 1) * 61_431 <= |frame|
                  && all[i] == ch.seal(nonce + i, Plaintext(frameId, i, |all|, frame[i * 61_431..(i + 1) * 61_431])))
            && (i + 1 == |all| ==> all[i] == ch.seal(nonce + i, Plaintext(frameId, i, |all|, frame[i * 61_431..])))
  {
    ChunkStarts(|frame|, 61_431, i);
    var all := Records(ch, nonce, frameId, frame);
    var chunk := ChunkAt(frame, 61_431, i);
    assert all[i] == ch.seal(nonce + i, Plaintext(frameId, i, |all|, chunk));
    assert i + 1 == |all| ==> chunk == frame[i * 61_431..];
  }

  /** An oversized or undecryptable record is an error that leaves the receiver as it was. */
  lemma ReceiveRefuses(ch: Channel, r: Receiver, record: Blob)
    ensures |record| > 65_535 || ch.open(r.nonce, record).None? ==> Receive(ch, r, record) == (r, Failed)
    ensures |record| <= 65_535 && ch.open(r.nonce, record).Some? ==> Receive(ch, r, record).0.nonce == r.nonce + 1
  {
  }

  /** What a receiver carries from record to record. */
  datatype Receiver = Receiver(nonce: nat, inbound: Option<Partial>)

  function Receive(ch: Channel, r: Receiver, record: Blob): (Receiver, Answer<Option<Blob>>) {
    if |record| > NOISE_MAX_MESSAGE_SIZE then (r, Failed)
    else
      var plaintext := ch.open(r.nonce, record);
      if plaintext.None? then (r, Failed)
      else
        var (inbound, outcome) := Accept(LAN_MAX_FRAME_SIZE, r.inbound, Parse(plaintext.value));
        (Receiver(r.nonce + 1, inbound),
         match outcome
         case Rejected => Failed
         case Waiting => Answered(None)
         case Complete(frame) => Answered(Some(frame)))
  }

  class LanRecordLayer {
    const outgoing: Channel
    const incoming: Channel
    var established: bool
    var sendNonce: nat
    var receiveNonce: nat
    var nextOutboundFrameId: u32
    var inbound: Option<Partial>

    constructor (outgoing: Channel, incoming: Channel)
      ensures !established && sendNonce == 0 && nextOutboundFrameId == 0 && Receiving() == Receiver(0, None)
      ensures this.outgoing == outgoing && this.incoming == incoming
    {
      this.outgoing, this.incoming := outgoing, incoming;
      established, sendNonce, receiveNonce, nextOutboundFrameId, inbound := false, 0, 0, 0, None;
    }

    /** The handshake has finished; the session enters transport mode. */
    method Promote()
      modifies this`established
      ensures established
    {
      established := true;
    }

    ghost function Receiving(): Receiver
      reads this
    {
      Receiver(receiveNonce, inbound)
    }

    /** The frame id is spent even when the handshake is not complete. */
    method EncryptFrame(frame: Blob) returns (r: Answer<seq<Blob>>)
      modifies this`sendNonce, this`nextOutboundFrameId
      ensures r.Answered? <==> |frame| <= 1_048_576 && established
      ensures nextOutboundFrameId
           == if |frame| > LAN_MAX_FRAME_SIZE then old(nextOutboundFrameId) else NextFrameId(old(nextOutboundFrameId))
      ensures r.Answered? ==> r.value == Records(outgoing, old(sendNonce), old(nextOutboundFrameId), frame)
      ensures sendNonce == old(sendNonce) + if r.Answered? then |r.value| else 0
    {
      if |frame| > LAN_MAX_FRAME_SIZE { return Failed; }
      var frameId := nextOutboundFrameId;
      nextOutboundFrameId := NextFrameId(nextOutboundFrameId);
      var total := ChunkCount(|frame|, RECORD_CHUNK_SIZE);
      FewRecords(frame);
      if !established { return Failed; }
      ghost var all := Records(outgoing, sendNonce, frameId, frame);
      var records := [];
      for index := 0 to total
        invariant records == all[..index] && sendNonce == old(sendNonce) + index
        invariant nextOutboundFrameId == NextFrameId(frameId)
      {
        ChunkStarts(|frame|, RECORD_CHUNK_SIZE, index);
        var start := index * RECORD_CHUNK_SIZE;
        var end := Min(start + RECORD_CHUNK_SIZE, |frame|);
        var plaintext := Plaintext(frameId, index, total, frame[start..end]);
        var encrypted := outgoing.seal(sendNonce, plaintext);
        assert encrypted == all[index];
        sendNonce := sendNonce + 1;
        records := records + [encrypted];
      }
      assert all[..total] == all;
      r := Answered(records);
    }

    method DecryptRecord(record: Blob) returns (r: Answer<Option<Blob>>)
      modifies this`receiveNonce, this`inbound
      ensures (Receiving(), r) ==
              if established then Receive(incoming, old(Receiving()), record) else (old(Receiving()), Failed)
    {
      if |record| > NOISE_MAX_MESSAGE_SIZE { return Failed; }
      if !established { return Failed; }
      var decrypted := incoming.open(receiveNonce, record);
      if decrypted.None? { return Failed; }
      var plaintext := decrypted.value;
      receiveNonce := receiveNonce + 1;
      if |plaintext| < RECORD_HEADER_SIZE || plaintext[0] != RECORD_TYPE_FRAME {
        inbound := None;
        return Failed;
      }
      var frameId := FromBigEndian(plaintext[1..5]);
      var index := FromBigEndian(plaintext[5..7]);
      var total := FromBigEndian(plaintext[7..9]);
      if total == 0 || index >= total {
        inbound := None;
        return Failed;
      }
      var chunk := plaintext[RECORD_HEADER_SIZE..];
      if index == 0 { inbound := Some(Partial(frameId, total, 0, [])); }
      if inbound.None? { return Failed; }
      var held := inbound.value;
      if held.frameId != frameId || held.total != total || held.next != index {
        inbound := None;
        return Failed;
      }
      if |held.bytes| + |chunk| > LAN_MAX_FRAME_SIZE {
        inbound := None;
        return Failed;
      }
      held := Partial(held.frameId, held.total, held.next + 1, held.bytes + chunk);
      inbound := Some(held);
      if held.next < held.total { return Answered(None); }
      inbound := None;
      r := Answered(Some(held.bytes));
    }
  }

  // ---- Whole runs ----

  /** Everything sent for a list of frames. */
  function SendAll(ch: Channel, nonce: nat, frameId: u32, frames: seq<Blob>): seq<Blob>
    decreases frames
  {
    if frames == [] then []
    else
      var records := Records(ch, nonce, frameId, frames[0]);
      records + SendAll(ch, nonce + |records|, NextFrameId(frameId), frames[1..])
  }

  /** The frames handed up while reading a list of records. */
  function ReceiveAll(ch: Channel, r: Receiver, records: seq<Blob>): seq<Blob>
    decreases records
  {
    if records == [] then []
    else
      var (next, answer) := Receive(ch, r, records[0]);
      (if answer.Answered? && answer.value.Some? then [answer.value.value] else [])
      + ReceiveAll(ch, next, records[1..])
  }

  /** The records among them that decrypt, parsed. */
  function Inputs(ch: Channel, nonce: nat, records: seq<Blob>): seq<Option<Piece>>
    decreases records
  {
    if records == [] then []
    else
      var plaintext := if |records[0]| > NOISE_MAX_MESSAGE_SIZE then None else ch.open(nonce, records[0]);
      if plaintext.None? then Inputs(ch, nonce, records[1..])
      else [Parse(plaintext.value)] + Inputs(ch, nonce + 1, records[1..])
  }

  /** Reading records is reassembling the ones that decrypt; the rest leave no mark. */
  lemma {:induction false} ReceivingReassembles(ch: Channel, r: Receiver, records: seq<Blob>)
    ensures ReceiveAll(ch, r, records)
         == Delivered(Outcomes(LAN_MAX_FRAME_SIZE, r.inbound, Inputs(ch, r.nonce, records)))
    decreases records
  {
    if records == [] {
    } else {
      hide Accept;
      var (next, answer) := Receive(ch, r, records[0]);
      ReceivingReassembles(ch, next, records[1..]);
      var inputs, rest := Inputs(ch, r.nonce, records), Inputs(ch, next.nonce, records[1..]);
      if next.nonce == r.nonce + 1 {
        assert inputs[0] == Parse(ch.open(r.nonce, records[0]).value) && inputs[1..] == rest;
        var outcomes := Outcomes(LAN_MAX_FRAME_SIZE, r.inbound, inputs);
        assert outcomes[1..] == Outcomes(LAN_MAX_FRAME_SIZE, next.inbound, rest);
      }
    }
  }

  /** Over any records whatever, every frame handed up is the concatenation of the
      latest decrypted records, all of one frame id, indices 0 to total - 1. */
  lemma HandedUpIsOneFrame(ch: Channel, records: seq<Blob>, k: nat)
    requires k < |Inputs(ch, 0, records)|
    ensures var inputs := Inputs(ch, 0, records);
            var outcomes := Outcomes(LAN_MAX_FRAME_SIZE, None, inputs);
            && ReceiveAll(ch, Receiver(0, None), records) == Delivered(outcomes)
            && (outcomes[k].Complete? ==> FrameSpelled(LAN_MAX_FRAME_SIZE, inputs[..k + 1], outcomes[k].frame))
  {
    ReceivingReassembles(ch, Receiver(0, None), records);
    DeliveredFramesSpelled(LAN_MAX_FRAME_SIZE, Inputs(ch, 0, records), k);
  }

  lemma {:induction false} InputsCompose(ch: Channel, nonce: nat, a: seq<Blob>, b: seq<Blob>)
    requires |Inputs(ch, nonce, a)| == |a|
    ensures Inputs(ch, nonce, a + b) == Inputs(ch, nonce, a) + Inputs(ch, nonce + |a|, b)
    decreases a
  {
    if a == [] {
      assert a + b == b;
    } else {
      InputsNoMore(ch, nonce, a[1..]);
      assert (a + b)[0] == a[0] && (a + b)[1..] == a[1..] + b;
      InputsCompose(ch, nonce + 1, a[1..], b);
    }
  }

  lemma {:induction false} InputsNoMore(ch: Channel, nonce: nat, records: seq<Blob>)
    ensures |Inputs(ch, nonce, records)| <= |records|
    decreases records
  {
    if records == [] {
    } else {
      InputsNoMore(ch, nonce, records[1..]);
      InputsNoMore(ch, nonce + 1, records[1..]);
    }
  }

  /** Every record fits the largest Noise message. */
  lemma RecordsFitNoise(ch: Channel, nonce: nat, frameId: u32, frame: Blob, i: nat)
    requires InOrder(ch) && i < |Records(ch, nonce, frameId, frame)|
    ensures |Records(ch, nonce, frameId, frame)[i]| <= 65_535
  {
  }

  lemma NoInputs(ch: Channel, nonce: nat)
    ensures Inputs(ch, nonce, []) == []
  {
  }

  lemma FirstInput(ch: Channel, nonce: nat, records: seq<Blob>)
    requires records != [] && |records[0]| <= NOISE_MAX_MESSAGE_SIZE && ch.open(nonce, records[0]).Some?
    ensures Inputs(ch, nonce, records)
         == [Parse(ch.open(nonce, records[0]).value)] + Inputs(ch, nonce + 1, records[1..])
  {
  }

  lemma RecordOpens(ch: Channel, nonce: nat, frameId: u32, frame: Blob, i: nat)
    requires InOrder(ch) && |frame| <= LAN_MAX_FRAME_SIZE && i < |Records(ch, nonce, frameId, frame)|
    ensures var plaintext := ch.open(nonce + i, Records(ch, nonce, frameId, frame)[i]);
            plaintext.Some? && Parse(plaintext.value) == Pieces(frameId, Chunks(frame, RECORD_CHUNK_SIZE))[i]
  {
    var chunks := Chunks(frame, RECORD_CHUNK_SIZE);
    FewRecords(frame);
    PlaintextParses(frameId, i, |chunks|, chunks[i]);
  }

  /** A frame's records decrypt to its pieces. */
  lemma {:induction false} RecordsOpen(ch: Channel, nonce: nat, frameId: u32, frame: Blob, k: nat)
    requires InOrder(ch) && |frame| <= LAN_MAX_FRAME_SIZE && k <= |Records(ch, nonce, frameId, frame)|
    ensures Inputs(ch, nonce + k, Records(ch, nonce, frameId, frame)[k..])
         == Pieces(frameId, Chunks(frame, RECORD_CHUNK_SIZE))[k..]
    decreases |Records(ch, nonce, frameId, frame)| - k
  {
    hide Records, Chunks, Pieces, Inputs, InOrder, Parse, ChunkCount;
    var records, pieces := Records(ch, nonce, frameId, frame), Pieces(frameId, Chunks(frame, RECORD_CHUNK_SIZE));
    if k == |records| {
      NoInputs(ch, nonce + k);
      assert records[k..] == [] && pieces[k..] == [];
    } else {
      RecordsOpen(ch, nonce, frameId, frame, k + 1);
      RecordOpens(ch, nonce, frameId, frame, k);
      RecordsFitNoise(ch, nonce, frameId, frame, k);
      assert records[k..][0] == records[k] && records[k..][1..] == records[k + 1..];
      FirstInput(ch, nonce + k, records[k..]);
      assert pieces[k..] == [pieces[k]] + pieces[k + 1..];
    }
  }

  ghost predicate AllFit(frames: seq<Blob>) {
    forall i :: 0 <= i < |frames| ==> |frames[i]| <= 1_048_576
  }

  lemma FirstSent(ch: Channel, nonce: nat, frameId: u32, frames: seq<Blob>)
    requires frames != [] && AllFit(frames)
    ensures |frames[0]| <= LAN_MAX_FRAME_SIZE && AllFit(frames[1..]) && frames == [frames[0]] + frames[1..]
    ensures var records := Records(ch, nonce, frameId, frames[0]);
            SendAll(ch, nonce, frameId, frames)
            == records + SendAll(ch, nonce + |records|, NextFrameId(frameId), frames[1..])
  {
  }

  /** Any list of frames comes out as it went in, whatever the receiver held when
      the first arrived and wherever the frame ids wrap. */
  lemma {:induction false} FramesComeOutInOrder(
      ch: Channel, nonce: nat, frameId: u32, frames: seq<Blob>, held: Option<Partial>)
    requires InOrder(ch) && AllFit(frames)
    ensures ReceiveAll(ch, Receiver(nonce, held), SendAll(ch, nonce, frameId, frames)) == frames
    decreases frames
  {
    hide *;
    if frames == [] {
      NothingSent(ch, nonce, frameId, held);
    } else {
      var frame, rest, nextId := frames[0], frames[1..], NextFrameId(frameId);
      FirstSent(ch, nonce, frameId, frames);
      var n := |Records(ch, nonce, frameId, frame)|;
      FramesComeOutInOrder(ch, nonce + n, nextId, rest, None);
      OneFrameThen(ch, nonce, frameId, frame, SendAll(ch, nonce + n, nextId, rest), held);
    }
  }

  lemma NothingSent(ch: Channel, nonce: nat, frameId: u32, held: Option<Partial>)
    ensures ReceiveAll(ch, Receiver(nonce, held), SendAll(ch, nonce, frameId, [])) == []
  {
  }

  lemma OneFrameThen(ch: Channel, nonce: nat, frameId: u32, frame: Blob, later: seq<Blob>, held: Option<Partial>)
    requires InOrder(ch) && |frame| <= LAN_MAX_FRAME_SIZE
    ensures var records := Records(ch, nonce, frameId, frame);
            ReceiveAll(ch, Receiver(nonce, held), records + later)
            == [frame] + ReceiveAll(ch, Receiver(nonce + |records|, None), later)
  {
    hide Records, Chunks, Pieces, Inputs, InOrder, ChunkCount, Concat, ReceiveAll;
    hide After, Outcomes, Delivered, WaitingThen;
    var records, chunks := Records(ch, nonce, frameId, frame), Chunks(frame, RECORD_CHUNK_SIZE);
    var n, pieces := |records|, Pieces(frameId, chunks);
    var after := Inputs(ch, nonce + n, later);
    RecordsOpen(ch, nonce, frameId, frame, 0);
    assert records[0..] == records && pieces[0..] == pieces;
    InputsCompose(ch, nonce, records, later);
    ChunksJoin(frame, RECORD_CHUNK_SIZE);
    FrameComesOut(LAN_MAX_FRAME_SIZE, held, frameId, chunks);
    RunsCompose(LAN_MAX_FRAME_SIZE, held, pieces, after);
    DeliveredComposes(WaitingThen(n, frame), Outcomes(LAN_MAX_FRAME_SIZE, None, after));
    OneDelivered(n, frame);
    ReceivingReassembles(ch, Receiver(nonce, held), records + later);
    ReceivingReassembles(ch, Receiver(nonce + n, None), later);
  }
}
