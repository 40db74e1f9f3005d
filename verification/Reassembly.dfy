/** Ordered, one-frame-at-a-time reassembly: the state machine under both the BLE
    fragment layer (core/src/framing.rs:83-118) and the LAN record layer
    (core/src/lan_session.rs:246-312), and how a frame is cut for either. */
module Reassembly {
  import opened Bytes

  /** A parsed header and its payload. BLE fragments carry no frame id. */
  datatype Piece = Piece(frameId: nat, index: nat, total: nat, payload: Blob)

  /** A frame being put together. */
  datatype Partial = Partial(frameId: nat, total: nat, next: nat, bytes: Blob)

  datatype Outcome = Rejected | Waiting | Complete(frame: Blob)

  predicate Continues(held: Option<Partial>, q: Piece) {
    held.Some? && held.value.frameId == q.frameId && held.value.total == q.total && held.value.next == q.index
  }

  /** One input; `None` is one whose header does not parse. */
  function Accept(limit: nat, held: Option<Partial>, input: Option<Piece>): (Option<Partial>, Outcome) {
    if input.None? || input.value.total == 0 || input.value.index >= input.value.total then (None, Rejected)
    else
      var q := input.value;
      var current := if q.index == 0 then Some(Partial(q.frameId, q.total, 0, [])) else held;
      if !Continues(current, q) || |current.value.bytes| + |q.payload| > limit then (None, Rejected)
      else
        var bytes := current.value.bytes + q.payload;
        if q.index + 1 < q.total then (Some(Partial(q.frameId, q.total, q.index + 1, bytes)), Waiting)
        else (None, Complete(bytes))
  }

  function After(limit: nat, held: Option<Partial>, inputs: seq<Option<Piece>>): Option<Partial>
    decreases inputs
  {
    if inputs == [] then held else After(limit, Accept(limit, held, inputs[0]).0, inputs[1..])
  }

  function Outcomes(limit: nat, held: Option<Partial>, inputs: seq<Option<Piece>>): (r: seq<Outcome>)
    ensures |r| == |inputs|
    decreases inputs
  {
    if inputs == [] then []
    else
      var (next, outcome) := Accept(limit, held, inputs[0]);
      [outcome] + Outcomes(limit, next, inputs[1..])
  }

  /** The frames handed up, in order. */
  function Delivered(outcomes: seq<Outcome>): seq<Blob> {
    if outcomes == [] then []
    else (if outcomes[0].Complete? then [outcomes[0].frame] else []) + Delivered(outcomes[1..])
  }

  lemma {:induction false} RunsCompose(limit: nat, held: Option<Partial>, a: seq<Option<Piece>>, b: seq<Option<Piece>>)
    ensures After(limit, held, a + b) == After(limit, After(limit, held, a), b)
    ensures Outcomes(limit, held, a + b) == Outcomes(limit, held, a) + Outcomes(limit, After(limit, held, a), b)
    decreases a
  {
    if a == [] {
      assert a + b == b;
    } else {
      assert (a + b)[0] == a[0] && (a + b)[1..] == a[1..] + b;
      RunsCompose(limit, Accept(limit, held, a[0]).0, a[1..], b);
    }
  }

  lemma {:induction false} DeliveredComposes(a: seq<Outcome>, b: seq<Outcome>)
    ensures Delivered(a + b) == Delivered(a) + Delivered(b)
  {
    if a == [] {
      assert a + b == b;
    } else {
      assert (a + b)[0] == a[0] && (a + b)[1..] == a[1..] + b;
      DeliveredComposes(a[1..], b);
    }
  }

  /** The run's last step. */
  lemma LastStep(limit: nat, held: Option<Partial>, inputs: seq<Option<Piece>>)
    requires inputs != []
    ensures var n := |inputs| - 1;
            var last := Accept(limit, After(limit, held, inputs[..n]), inputs[n]);
            && After(limit, held, inputs) == last.0
            && Outcomes(limit, held, inputs) == Outcomes(limit, held, inputs[..n]) + [last.1]
  {
    var n := |inputs| - 1;
    assert inputs == inputs[..n] + [inputs[n]];
    RunsCompose(limit, held, inputs[..n], [inputs[n]]);
  }

  // ---- What a delivered frame is made of ----

  function Joined(pieces: seq<Option<Piece>>): Blob {
    if pieces == [] then []
    else
      var n := |pieces| - 1;
      Joined(pieces[..n]) + if pieces[n].Some? then pieces[n].value.payload else []
  }

  ghost predicate Numbered(pieces: seq<Option<Piece>>, frameId: nat, total: nat) {
    forall i :: 0 <= i < |pieces| ==>
      && pieces[i].Some? && pieces[i].value.frameId == frameId
      && pieces[i].value.index == i && pieces[i].value.total == total
  }

  /** These pieces, in this order, are the start of one frame and carry `bytes`. */
  ghost predicate Spells(pieces: seq<Option<Piece>>, frameId: nat, total: nat, bytes: Blob) {
    Numbered(pieces, frameId, total) && Joined(pieces) == bytes
  }

  lemma SpellsGrow(pieces: seq<Option<Piece>>, q: Piece, bytes: Blob)
    requires Spells(pieces, q.frameId, q.total, bytes) && q.index == |pieces|
    ensures Spells(pieces + [Some(q)], q.frameId, q.total, bytes + q.payload)
  {
    var longer := pieces + [Some(q)];
    assert longer[..|pieces|] == pieces && longer[|pieces|] == Some(q);
  }

  /** The held frame is spelled by the most recent inputs. */
  ghost predicate HeldSpelled(limit: nat, inputs: seq<Option<Piece>>, held: Option<Partial>) {
    held.Some? ==>
      && 0 < held.value.next < held.value.total && held.value.next <= |inputs| && |held.value.bytes| <= limit
      && Spells(inputs[|inputs| - held.value.next..], held.value.frameId, held.value.total, held.value.bytes)
  }

  /** The last inputs, as many as the last header says, spell `frame` in full. */
  ghost predicate FrameSpelled(limit: nat, inputs: seq<Option<Piece>>, frame: Blob) {
    && inputs != [] && inputs[|inputs| - 1].Some? && |frame| <= limit
    && var last := inputs[|inputs| - 1].value;
       0 < last.total <= |inputs| && Spells(inputs[|inputs| - last.total..], last.frameId, last.total, frame)
  }

  lemma StepSpells(limit: nat, inputs: seq<Option<Piece>>, held: Option<Partial>, input: Option<Piece>)
    requires HeldSpelled(limit, inputs, held)
    ensures var (next, outcome) := Accept(limit, held, input);
            && HeldSpelled(limit, inputs + [input], next)
            && (outcome.Complete? ==> FrameSpelled(limit, inputs + [input], outcome.frame))
  {
    var outcome := Accept(limit, held, input).1;
    if !outcome.Rejected? {
      hide Spells;
      var q, longer := input.value, inputs + [input];
      var start := |inputs| - q.index;
      var bytes := if q.index == 0 then [] else held.value.bytes;
      assert Spells(inputs[start..], q.frameId, q.total, bytes) by {
        if q.index == 0 { EmptySpells(q.frameId, q.total); assert inputs[start..] == []; }
      }
      SpellsGrow(inputs[start..], q, bytes);
      assert inputs[start..] + [input] == longer[start..];
      assert start == |longer| - (q.index + 1);
    }
  }

  lemma EmptySpells(frameId: nat, total: nat)
    ensures Spells([], frameId, total, [])
  {
  }

  lemma {:induction false} HeldAlwaysSpelled(limit: nat, inputs: seq<Option<Piece>>)
    ensures HeldSpelled(limit, inputs, After(limit, None, inputs))
  {
    if inputs == [] {
      assert After(limit, None, inputs) == None;
    } else {
      hide HeldSpelled, Accept, After;
      var n := |inputs| - 1;
      HeldAlwaysSpelled(limit, inputs[..n]);
      LastStep(limit, None, inputs);
      StepSpells(limit, inputs[..n], After(limit, None, inputs[..n]), inputs[n]);
      assert inputs == inputs[..n] + [inputs[n]];
    }
  }

  /** In every run, whatever frame is handed up is the concatenation of the last
      `total` inputs, whose headers read 0 to total - 1 of one frame; and never
      more than the limit is held or handed up. */
  lemma DeliveredFramesSpelled(limit: nat, inputs: seq<Option<Piece>>, k: nat)
    requires k < |inputs|
    ensures var outcome := Outcomes(limit, None, inputs)[k];
            outcome.Complete? ==> FrameSpelled(limit, inputs[..k + 1], outcome.frame)
    ensures var held := After(limit, None, inputs[..k + 1]); held.Some? ==> |held.value.bytes| <= limit
  {
    var upto := inputs[..k + 1];
    assert inputs == upto + inputs[k + 1..];
    RunsCompose(limit, None, upto, inputs[k + 1..]);
    LastStep(limit, None, upto);
    assert upto[..k] == inputs[..k] && upto == inputs[..k] + [inputs[k]];
    HeldAlwaysSpelled(limit, inputs[..k]);
    HeldAlwaysSpelled(limit, upto);
    StepSpells(limit, inputs[..k], After(limit, None, inputs[..k]), inputs[k]);
  }

  // ---- What the pieces of a frame deliver ----

  function Pieces(frameId: nat, payloads: seq<Blob>): (s: seq<Option<Piece>>)
    ensures |s| == |payloads|
  {
    seq(|payloads|, i requires 0 <= i < |payloads| => Some(Piece(frameId, i, |payloads|, payloads[i])))
  }

  function Concat(payloads: seq<Blob>): Blob {
    if payloads == [] then [] else Concat(payloads[..|payloads| - 1]) + payloads[|payloads| - 1]
  }

  /** Nothing until the last, and then the frame. */
  function WaitingThen(n: nat, frame: Blob): (s: seq<Outcome>)
    requires n > 0
    ensures |s| == n
  {
    seq(n, i requires 0 <= i < n => if i < n - 1 then Waiting else Complete(frame))
  }

  lemma {:induction false} ConcatPrefix(payloads: seq<Blob>, k: nat)
    requires k <= |payloads|
    ensures |Concat(payloads[..k])| <= |Concat(payloads)|
    ensures k > 0 ==> Concat(payloads[..k]) == Concat(payloads[..k - 1]) + payloads[k - 1]
    decreases |payloads| - k
  {
    if k < |payloads| {
      ConcatPrefix(payloads, k + 1);
    } else {
      assert payloads[..k] == payloads;
    }
    if k == 0 {
    } else {
      assert payloads[..k][..k - 1] == payloads[..k - 1];
    }
  }

  /** The first `k` pieces, from whatever was held before. */
  lemma {:induction false} PrefixRuns(limit: nat, held: Option<Partial>, frameId: nat, payloads: seq<Blob>, k: nat)
    requires 0 < k <= |payloads| && |Concat(payloads)| <= limit
    ensures var n, inputs := |payloads|, Pieces(frameId, payloads)[..k];
            && After(limit, held, inputs)
               == (if k < n then Some(Partial(frameId, n, k, Concat(payloads[..k]))) else None)
            && Outcomes(limit, held, inputs) == WaitingThen(n, Concat(payloads))[..k]
    decreases k
  {
    var n, all := |payloads|, Pieces(frameId, payloads);
    var inputs := all[..k];
    assert inputs[..k - 1] == all[..k - 1] && inputs[k - 1] == all[k - 1];
    LastStep(limit, held, inputs);
    ConcatPrefix(payloads, k);
    if k == 1 {
      assert payloads[..0] == [];
    } else {
      PrefixRuns(limit, held, frameId, payloads, k - 1);
    }
    var frame := Concat(payloads);
    assert payloads[..n] == payloads;
    assert WaitingThen(n, frame)[..k] == WaitingThen(n, frame)[..k - 1] + [WaitingThen(n, frame)[k - 1]];
  }

  /** From any state at all, a frame's pieces in order yield nothing until the
      last and then exactly the frame, and leave nothing held. */
  lemma FrameComesOut(limit: nat, held: Option<Partial>, frameId: nat, payloads: seq<Blob>)
    requires payloads != [] && |Concat(payloads)| <= limit
    ensures Outcomes(limit, held, Pieces(frameId, payloads)) == WaitingThen(|payloads|, Concat(payloads))
    ensures After(limit, held, Pieces(frameId, payloads)) == None
  {
    var n, all := |payloads|, Pieces(frameId, payloads);
    PrefixRuns(limit, held, frameId, payloads, n);
    assert all[..n] == all && WaitingThen(n, Concat(payloads))[..n] == WaitingThen(n, Concat(payloads));
  }

  lemma {:induction false} OneDelivered(n: nat, frame: Blob)
    requires n > 0
    ensures Delivered(WaitingThen(n, frame)) == [frame]
  {
    if n == 1 {
      assert WaitingThen(n, frame) == [Complete(frame)];
    } else {
      OneDelivered(n - 1, frame);
      assert WaitingThen(n, frame)[1..] == WaitingThen(n - 1, frame);
    }
  }

  // ---- Cutting a frame ----

  function Min(a: nat, b: nat): nat { if a < b then a else b }
  function Max(a: nat, b: nat): nat { if a < b then b else a }

  /** `div_ceil(..).max(1)`. */
  function ChunkCount(n: nat, size: nat): (c: nat)
    requires size > 0
    ensures c > 0
  {
    Max((n + size - 1) / size, 1)
  }

  /** Every chunk before the last is full. */
  lemma ChunkStarts(n: nat, size: nat, i: nat)
    requires size > 0 && i < ChunkCount(n, size)
    ensures i * size <= n
    ensures (i + 1) * size >= n <==> i + 1 == ChunkCount(n, size)
  {
    var c := (n + size - 1) / size;
    assert c * size <= n + size - 1 < c * size + size;
    if i + 1 < c {
      assert (i + 1) * size <= (c - 1) * size == c * size - size;
    } else if i + 1 == c {
      assert (i + 1) * size == c * size && i * size == c * size - size;
    }
  }

  function ChunkAt(frame: Blob, size: nat, i: nat): (c: Blob)
    requires size > 0 && i < ChunkCount(|frame|, size)
    ensures |c| <= size
  {
    ChunkStarts(|frame|, size, i);
    frame[i * size..Min(i * size + size, |frame|)]
  }

  function Chunks(frame: Blob, size: nat): (s: seq<Blob>)
    requires size > 0
    ensures |s| == ChunkCount(|frame|, size)
  {
    seq(ChunkCount(|frame|, size), i requires 0 <= i < ChunkCount(|frame|, size) => ChunkAt(frame, size, i))
  }

  lemma {:induction false} ChunksPrefix(frame: Blob, size: nat, k: nat)
    requires size > 0 && k <= ChunkCount(|frame|, size)
    ensures Concat(Chunks(frame, size)[..k]) == frame[..Min(k * size, |frame|)]
    decreases k
  {
    var chunks := Chunks(frame, size);
    if k == 0 {
    } else {
      ChunksPrefix(frame, size, k - 1);
      ChunkStarts(|frame|, size, k - 1);
      assert chunks[..k][..k - 1] == chunks[..k - 1];
      assert (k - 1) * size + size == k * size;
      var mid, end := (k - 1) * size, Min(k * size, |frame|);
      assert frame[..mid] + frame[mid..end] == frame[..end];
    }
  }

  /** Cutting loses nothing. */
  lemma ChunksJoin(frame: Blob, size: nat)
    requires size > 0
    ensures Concat(Chunks(frame, size)) == frame
  {
    var chunks := Chunks(frame, size);
    var n := |chunks|;
    ChunksPrefix(frame, size, n);
    ChunkStarts(|frame|, size, n - 1);
    assert chunks[..n] == chunks && frame[..|frame|] == frame;
  }
}
