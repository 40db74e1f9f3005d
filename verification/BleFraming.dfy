/** BLE link-layer fragmentation (core/src/framing.rs). */
module BleFraming {
  import opened Bytes
  import opened Reassembly

  const FRAGMENT_HEADER_SIZE := 4
  const MAX_ATT_VALUE_LEN := 512
  const MAX_FRAGMENTS := 65535
  const MAX_P2P_FRAME_BYTES := 34 + 512 * 1024

  /** `index16 | total16 | payload`; nothing when the fragment's size is wrong. */
  function Parse(fragment: Blob): Option<Piece> {
    if |fragment| < FRAGMENT_HEADER_SIZE || |fragment| > MAX_ATT_VALUE_LEN then None
    else Some(Piece(0, FromBigEndian(fragment[..2]), FromBigEndian(fragment[2..4]), fragment[4..]))
  }

  function ParseAll(fragments: seq<Blob>): (s: seq<Option<Piece>>)
    ensures |s| == |fragments|
  {
    seq(|fragments|, i requires 0 <= i < |fragments| => Parse(fragments[i]))
  }

  function ChunkSize(mtu: u32): (n: nat)
    ensures 1 <= n <= MAX_ATT_VALUE_LEN - FRAGMENT_HEADER_SIZE
  {
    var capped := Min(mtu, MAX_ATT_VALUE_LEN);
    Max(if capped > FRAGMENT_HEADER_SIZE then capped - FRAGMENT_HEADER_SIZE else 0, 1)
  }

  function Fragment(index: nat, total: nat, chunk: Blob): Blob {
    BigEndian(index, 2) + BigEndian(total, 2) + chunk
  }

  function Fragments(frame: Blob, mtu: u32): Option<seq<Blob>> {
    var chunks := Chunks(frame, ChunkSize(mtu));
    if |frame| > MAX_P2P_FRAME_BYTES || |chunks| > MAX_FRAGMENTS then None
    else Some(seq(|chunks|, i requires 0 <= i < |chunks| => Fragment(i, |chunks|, chunks[i])))
  }

  method FragmentBleFrame(frame: Blob, mtu: u32) returns (r: Option<seq<Blob>>)
    ensures r == Fragments(frame, mtu)
  {
    if |frame| > MAX_P2P_FRAME_BYTES { return None; }
    var chunkSize := ChunkSize(mtu);
    var total := ChunkCount(|frame|, chunkSize);
    if total > MAX_FRAGMENTS { return None; }
    ghost var all := Fragments(frame, mtu).value;
    var fragments := [];
    for index := 0 to total
      invariant fragments == all[..index]
    {
      ChunkStarts(|frame|, chunkSize, index);
      var start := index * chunkSize;
      var end := Min(start + chunkSize, |frame|);
      var fragment := BigEndian(index, 2);
      fragment := fragment + BigEndian(total, 2);
      fragment := fragment + frame[start..end];
      assert fragment == all[index];
      fragments := fragments + [fragment];
    }
    assert all[..total] == all;
    r := Some(fragments);
  }

  class BleFrameReassembler {
    var buffer: Option<Blob>
    var expectedTotal: u16
    var nextIndex: u16

    /** What the next fragment is judged against; the two counters mean nothing
        without a buffer. */
    ghost function Held(): Option<Partial>
      reads this
    {
      if buffer.None? then None else Some(Partial(0, expectedTotal, nextIndex, buffer.value))
    }

    constructor ()
      ensures Held() == None
    {
      buffer, expectedTotal, nextIndex := None, 0, 0;
    }

    method Reset()
      modifies this
      ensures Held() == None
    {
      buffer, expectedTotal, nextIndex := None, 0, 0;
    }

    /** A frame is returned exactly on completion; anything else drops or waits. */
    method AcceptFragment(fragment: Blob) returns (frame: Option<Blob>)
      modifies this
      ensures var (held, outcome) := Accept(MAX_P2P_FRAME_BYTES, old(Held()), Parse(fragment));
              Held() == held && frame == if outcome.Complete? then Some(outcome.frame) else None
    {
      if |fragment| < FRAGMENT_HEADER_SIZE || |fragment| > MAX_ATT_VALUE_LEN {
        Reset();
        return None;
      }
      Widths();
      var index := FromBigEndian(fragment[..2]);
      var total := FromBigEndian(fragment[2..4]);
      if total == 0 || index >= total {
        Reset();
        return None;
      }
      if index == 0 {
        buffer, expectedTotal, nextIndex := Some([]), total, 0;
      }
      if buffer.None? || index != nextIndex || total != expectedTotal {
        Reset();
        return None;
      }
      var payload := fragment[FRAGMENT_HEADER_SIZE..];
      if |buffer.value| + |payload| > MAX_P2P_FRAME_BYTES {
        Reset();
        return None;
      }
      buffer := Some(buffer.value + payload);
      nextIndex := nextIndex + 1;
      if nextIndex < expectedTotal { return None; }
      frame := buffer;
      buffer := None;
    }
  }

  lemma FragmentParses(index: nat, total: nat, chunk: Blob)
    requires index < total <= MAX_FRAGMENTS && |chunk| + FRAGMENT_HEADER_SIZE <= MAX_ATT_VALUE_LEN
    ensures Parse(Fragment(index, total, chunk)) == Some(Piece(0, index, total, chunk))
  {
    Widths();
    BigEndianReads(index, 2);
    BigEndianReads(total, 2);
    var f := Fragment(index, total, chunk);
    assert f[..2] == BigEndian(index, 2) && f[2..4] == BigEndian(total, 2) && f[4..] == chunk;
  }

  /** The fragments of a frame, fed in order to a reassembler in any state, give
      nothing until the last and then exactly that frame. */
  lemma BleRoundTrip(frame: Blob, mtu: u32, held: Option<Partial>)
    requires Fragments(frame, mtu).Some?
    ensures var inputs := ParseAll(Fragments(frame, mtu).value);
            && |inputs| > 0
            && Outcomes(MAX_P2P_FRAME_BYTES, held, inputs) == WaitingThen(|inputs|, frame)
            && After(MAX_P2P_FRAME_BYTES, held, inputs) == None
  {
    var size := ChunkSize(mtu);
    var chunks, fragments := Chunks(frame, size), Fragments(frame, mtu).value;
    ChunksJoin(frame, size);
    FrameComesOut(MAX_P2P_FRAME_BYTES, held, 0, chunks);
    forall i | 0 <= i < |chunks| ensures Parse(fragments[i]) == Pieces(0, chunks)[i] {
      assert chunks[i] == ChunkAt(frame, size, i);
      FragmentParses(i, |chunks|, chunks[i]);
    }
    assert ParseAll(fragments) == Pieces(0, chunks);
  }

  /** Fragmenting fails exactly on a frame too large, or on one needing more
      fragments than 16 bits count; each fragment fits the link payload whenever
      that has room for a header and one byte. */
  lemma FragmentsFit(frame: Blob, mtu: u32)
    ensures Fragments(frame, mtu).None? <==> |frame| > 524_322 || |frame| > 65_535 * FullPayload(mtu)
    ensures Fragments(frame, mtu).Some? && mtu > 4 ==>
              forall f :: f in Fragments(frame, mtu).value ==> |f| <= (if mtu < 512 then mtu else 512)
  {
    var size := ChunkSize(mtu);
    var chunks := Chunks(frame, size);
    ChunkCountBound(|frame|, size, MAX_FRAGMENTS);
    if Fragments(frame, mtu).Some? {
      forall i | 0 <= i < |chunks| ensures |Fragment(i, |chunks|, chunks[i])| <= FRAGMENT_HEADER_SIZE + size {
        assert chunks[i] == ChunkAt(frame, size, i);
      }
    }
  }

  /** The payload of a full fragment: what the link allows, up to 512, less four bytes of
      header, and at least one. */
  function FullPayload(mtu: u32): nat {
    if mtu <= 5 then 1 else if mtu >= 512 then 508 else mtu - 4
  }

  /** Every fragment is numbered from 0, tells the count, and carries the next bytes of
      the frame; all before the last are full. */
  lemma FragmentsLaidOut(frame: Blob, mtu: u32, i: nat)
    requires Fragments(frame, mtu).Some? && i < |Fragments(frame, mtu).value|
    ensures var all, size := Fragments(frame, mtu).value, FullPayload(mtu);
            && At(all[i], 0, [i / 256 % 256, i % 256]) && At(all[i], 2, [|all| / 256 % 256, |all| % 256])
            && i * size <= |frame|
            && (i + 1 < |all| ==> (i + 1) * size <= |frame| && all[i][4..] == frame[i * size..(i + 1) * size])
            && (i + 1 == |all| ==> all[i][4..] == frame[i * size..])
  {
    var all, size := Fragments(frame, mtu).value, ChunkSize(mtu);
    assert size == FullPayload(mtu);
    BigEndianSpelled(i);
    BigEndianSpelled(|all|);
    ChunkStarts(|frame|, size, i);
    assert (i + 1) * size == i * size + size;
    var chunk := ChunkAt(frame, size, i);
    assert all[i] == Fragment(i, |all|, chunk);
    hide BigEndian;
    assert all[i][4..] == chunk;
    assert all[i][0..2] == BigEndian(i, 2) && all[i][2..4] == BigEndian(|all|, 2);
  }

  lemma ChunkCountBound(n: nat, size: nat, most: nat)
    requires size > 0 && most > 0
    ensures ChunkCount(n, size) > most <==> n > most * size
  {
    var c := ChunkCount(n, size);
    ChunkStarts(n, size, c - 1);
    if c > most { ChunkStarts(n, size, most - 1); } else { Scales(c, most, size); }
  }

  lemma Scales(a: nat, b: nat, size: nat)
    requires a <= b
    ensures a * size <= b * size
  {
  }
}
