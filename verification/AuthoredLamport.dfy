/** Allocating the next lamport of an authored stream (core/src/authoring.rs:814-854,
    1022-1039, 1080-1110), against everything that adds to or clears the tables it
    reads. Each transaction is one step. */
module AuthoredLamport {
  import opened Bytes

  const I64_MAX := 0x7FFF_FFFF_FFFF_FFFF
  type i64 = x: int | -0x8000_0000_0000_0000 <= x <= 0x7FFF_FFFF_FFFF_FFFF
  /** A receipt watermark, validated on the way in. */
  type Mark = x: int | 0 <= x <= 0x7FFF_FFFF_FFFF_FFFF

  const RECEIPT_TYPE_DELIVERED: byte := 1
  const RECEIPT_TYPE_READ: byte := 2

  /** Chat, sender and device ids are only ever compared. */
  datatype Stream = Stream(chat: nat, sender: nat)
  datatype Row = Row(stream: Stream, device: nat, lamport: i64)
  datatype ReceiptKey = ReceiptKey(stream: Stream, kind: byte)

  /** The three tables. */
  datatype State = State(messages: seq<Row>, receipts: map<ReceiptKey, Mark>, watermarks: map<Stream, i64>)

  function Max(a: i64, b: i64): i64 { if a < b then b else a }

  /** `value as i64`. */
  function Wrapped(value: u64): i64 {
    if value <= I64_MAX then value else value - 0x1_0000_0000_0000_0000
  }

  /** MAX(lamport) over one stream's rows. */
  function Highest(rows: seq<Row>, stream: Stream): Option<i64> {
    if rows == [] then None
    else
      var last, before := rows[|rows| - 1], Highest(rows[..|rows| - 1], stream);
      if last.stream != stream then before
      else if before.None? then Some(last.lamport)
      else Some(Max(before.value, last.lamport))
  }

  function Through(s: State, stream: Stream, kind: byte): Mark {
    var key := ReceiptKey(stream, kind);
    if key in s.receipts then s.receipts[key] else 0
  }

  function Floor(s: State, stream: Stream): Mark {
    var own := Highest(s.messages, stream);
    var high := if stream in s.watermarks then s.watermarks[stream] else 0;
    Max(Max(Max(if own.Some? then own.value else 0, Through(s, stream, RECEIPT_TYPE_DELIVERED)),
            Through(s, stream, RECEIPT_TYPE_READ)),
        high)
  }

  /** Saturating at the ceiling of a signed 64-bit column. */
  function Next(s: State, stream: Stream): Mark {
    if Floor(s, stream) == I64_MAX then I64_MAX else Floor(s, stream) + 1
  }

  // ---- Steps ----

  datatype Event =
    | Author(stream: Stream, device: nat)
    | Backfill(stream: Stream, lamport: u64)
    | StoreRow(row: Row)
    | Receipt(stream: Stream, kind: byte, through: u64)
    | DeleteChat(chat: nat)
    | WipeConversations

  function Raised(watermarks: map<Stream, i64>, stream: Stream, lamport: i64): map<Stream, i64> {
    watermarks[stream := if stream in watermarks then Max(watermarks[stream], lamport) else lamport]
  }

  /** INSERT OR IGNORE on the row's unique key. */
  function Inserted(rows: seq<Row>, row: Row): seq<Row> {
    if row in rows then rows else rows + [row]
  }

  function WithoutChat(rows: seq<Row>, chat: nat): seq<Row> {
    if rows == [] then []
    else
      var last := rows[|rows| - 1];
      WithoutChat(rows[..|rows| - 1], chat) + if last.stream.chat == chat then [] else [last]
  }

  predicate ValidReceipt(kind: byte, through: u64) {
    (kind == RECEIPT_TYPE_DELIVERED || kind == RECEIPT_TYPE_READ) && through <= I64_MAX
  }

  function Step(s: State, e: Event): State {
    match e
    case Author(stream, device) =>
      var lamport := Next(s, stream);
      s.(messages := Inserted(s.messages, Row(stream, device, lamport)),
         watermarks := Raised(s.watermarks, stream, lamport))
    case Backfill(stream, lamport) => s.(watermarks := Raised(s.watermarks, stream, Wrapped(lamport)))
    case StoreRow(row) => s.(messages := Inserted(s.messages, row))
    case Receipt(stream, kind, through) =>
      if !ValidReceipt(kind, through) then s
      else s.(receipts := s.receipts[ReceiptKey(stream, kind) := Max(Through(s, stream, kind), through)])
    case DeleteChat(chat) =>
      s.(messages := WithoutChat(s.messages, chat),
         receipts := map k | k in s.receipts && k.stream.chat != chat :: s.receipts[k])
    case WipeConversations => s.(messages := [], receipts := map[])
  }

  class AuthoringStore {
    var messages: seq<Row>
    var receipts: map<ReceiptKey, Mark>
    var watermarks: map<Stream, i64>

    ghost function Tables(): State
      reads this
    {
      State(messages, receipts, watermarks)
    }

    constructor ()
      ensures Tables() == State([], map[], map[])
    {
      messages, receipts, watermarks := [], map[], map[];
    }

    method MaxLamport(stream: Stream) returns (own: Option<i64>)
      ensures own == Highest(messages, stream)
    {
      own := None;
      for i := 0 to |messages|
        invariant own == Highest(messages[..i], stream)
      {
        assert messages[..i + 1][..i] == messages[..i];
        var row := messages[i];
        if row.stream == stream && (own.None? || own.value < row.lamport) { own := Some(row.lamport); }
      }
      assert messages[..|messages|] == messages;
    }

    method NextAuthoredLamport(stream: Stream) returns (next: Mark, delivered: Mark)
      ensures next == Next(Tables(), stream) && delivered == Through(Tables(), stream, RECEIPT_TYPE_DELIVERED)
    {
      var stored := MaxLamport(stream);
      var own: i64 := if stored.Some? then stored.value else 0;
      var deliveredKey, readKey := ReceiptKey(stream, RECEIPT_TYPE_DELIVERED), ReceiptKey(stream, RECEIPT_TYPE_READ);
      delivered := if deliveredKey in receipts then receipts[deliveredKey] else 0;
      var read := if readKey in receipts then receipts[readKey] else 0;
      var authoredHigh: i64 := if stream in watermarks then watermarks[stream] else 0;
      var floor := Max(Max(Max(own, delivered), read), authoredHigh);
      next := if floor == I64_MAX then I64_MAX else floor + 1;
    }

    method RecordAuthoredWatermark(stream: Stream, lamport: i64)
      modifies this`watermarks
      ensures watermarks == Raised(old(watermarks), stream, lamport)
    {
      var high := lamport;
      if stream in watermarks && watermarks[stream] > lamport { high := watermarks[stream]; }
      watermarks := watermarks[stream := high];
    }

    method InsertAuthoredRows(row: Row)
      modifies this`watermarks, this`messages
      ensures watermarks == Raised(old(watermarks), row.stream, row.lamport)
      ensures messages == Inserted(old(messages), row)
    {
      RecordAuthoredWatermark(row.stream, row.lamport);
      if row !in messages { messages := messages + [row]; }
    }

    method AuthorMessage(stream: Stream, device: nat) returns (lamport: Mark)
      modifies this
      ensures lamport == Next(old(Tables()), stream) && Tables() == Step(old(Tables()), Author(stream, device))
    {
      var delivered;
      lamport, delivered := NextAuthoredLamport(stream);
      InsertAuthoredRows(Row(stream, device, lamport));
    }

    method RecordReceipt(stream: Stream, kind: byte, through: u64) returns (ok: bool)
      modifies this`receipts
      ensures ok == ValidReceipt(kind, through)
      ensures Tables() == Step(old(Tables()), Receipt(stream, kind, through))
    {
      if (kind != RECEIPT_TYPE_DELIVERED && kind != RECEIPT_TYPE_READ) || through > I64_MAX { return false; }
      var key := ReceiptKey(stream, kind);
      var high: Mark := through;
      if key in receipts && receipts[key] > through { high := receipts[key]; }
      receipts := receipts[key := high];
      ok := true;
    }

    /** Deleting a contact or a group: rows and receipts go, the watermark stays. */
    method DeleteConversation(chat: nat)
      modifies this`messages, this`receipts
      ensures Tables() == Step(old(Tables()), DeleteChat(chat))
    {
      var kept := [];
      for i := 0 to |messages|
        invariant kept == WithoutChat(messages[..i], chat)
      {
        assert messages[..i + 1][..i] == messages[..i];
        if messages[i].stream.chat != chat { kept := kept + [messages[i]]; }
      }
      assert messages[..|messages|] == messages;
      messages := kept;
      receipts := map k | k in receipts && k.stream.chat != chat :: receipts[k];
    }

    method Wipe()
      modifies this`messages, this`receipts
      ensures Tables() == Step(old(Tables()), WipeConversations)
    {
      messages, receipts := [], map[];
    }
  }

  // ---- What the next lamport exceeds ----

  lemma {:induction false} HighestIsMaximum(rows: seq<Row>, stream: Stream, row: Row)
    requires row in rows && row.stream == stream
    ensures Highest(rows, stream).Some? && Highest(rows, stream).value >= row.lamport
  {
    var n := |rows| - 1;
    assert rows == rows[..n] + [rows[n]];
    if row == rows[n] {
    } else {
      HighestIsMaximum(rows[..n], stream, row);
    }
  }

  /** The next lamport exceeds a stored receipt watermark, a stored message of the
      stream and the authored watermark exactly when those are below the ceiling. */
  lemma NextExceedsStored(s: State, stream: Stream)
    ensures forall kind | kind == RECEIPT_TYPE_DELIVERED || kind == RECEIPT_TYPE_READ ::
              Next(s, stream) > Through(s, stream, kind) <==> Through(s, stream, kind) < I64_MAX
    ensures forall row | row in s.messages && row.stream == stream ::
              Next(s, stream) > row.lamport <==> row.lamport < I64_MAX
    ensures stream in s.watermarks ==>
              (Next(s, stream) > s.watermarks[stream] <==> s.watermarks[stream] < I64_MAX)
  {
    forall row | row in s.messages && row.stream == stream
      ensures Floor(s, stream) >= row.lamport
    {
      HighestIsMaximum(s.messages, stream, row);
    }
  }

  lemma {:induction false} HighestAttained(rows: seq<Row>, stream: Stream)
    ensures Highest(rows, stream).Some? ==>
              exists row :: row in rows && row.stream == stream && row.lamport == Highest(rows, stream).value
  {
    if rows == [] {
    } else {
      var n := |rows| - 1;
      HighestAttained(rows[..n], stream);
      assert rows[n] in rows && forall row :: row in rows[..n] ==> row in rows;
    }
  }

  /** Above every stored message of the stream, both its receipts and its watermark. */
  ghost predicate AboveStored(s: State, stream: Stream, m: int) {
    && (forall row :: row in s.messages && row.stream == stream ==> m > row.lamport)
    && (ReceiptKey(stream, 1) in s.receipts ==> m > s.receipts[ReceiptKey(stream, 1)])
    && (ReceiptKey(stream, 2) in s.receipts ==> m > s.receipts[ReceiptKey(stream, 2)])
    && (stream in s.watermarks ==> m > s.watermarks[stream])
  }

  /** The next lamport is the least positive one above everything stored, or the ceiling
      where none below it is. */
  lemma NextIsLeast(s: State, stream: Stream)
    ensures forall m :: 1 <= m && AboveStored(s, stream, m) ==> Next(s, stream) <= m
    ensures Next(s, stream) >= 1
    ensures AboveStored(s, stream, Next(s, stream)) || Next(s, stream) == 0x7FFF_FFFF_FFFF_FFFF
  {
    HighestAttained(s.messages, stream);
    forall row | row in s.messages && row.stream == stream ensures Floor(s, stream) >= row.lamport {
      HighestIsMaximum(s.messages, stream, row);
    }
  }

  lemma {:induction false} WithoutChatExactly(rows: seq<Row>, chat: nat, row: Row)
    ensures row in WithoutChat(rows, chat) <==> row in rows && row.stream.chat != chat
  {
    if rows == [] {
    } else {
      var n := |rows| - 1;
      WithoutChatExactly(rows[..n], chat, row);
      assert rows == rows[..n] + [rows[n]];
    }
  }

  /** A signed 64-bit column's reading of an unsigned number. */
  function AsSigned(n: u64): int {
    if n < 0x8000_0000_0000_0000 then n else n - 0x1_0000_0000_0000_0000
  }

  /** What each event does to the three tables, entry by entry. */
  lemma StepSpelled(s: State, e: Event)
    ensures var t := Step(s, e);
            match e
            case Author(stream, device) =>
              && t.receipts == s.receipts && t.watermarks == s.watermarks[stream := Next(s, stream)]
              && forall row :: row in t.messages <==> row in s.messages || row == Row(stream, device, Next(s, stream))
            case Backfill(stream, lamport) =>
              && t.receipts == s.receipts && t.messages == s.messages
              && var l := AsSigned(lamport);
                 t.watermarks == if stream in s.watermarks && s.watermarks[stream] >= l then s.watermarks
                                 else s.watermarks[stream := l]
            case StoreRow(r) =>
              && t.receipts == s.receipts && t.watermarks == s.watermarks
              && forall row :: row in t.messages <==> row in s.messages || row == r
            case Receipt(stream, kind, through) =>
              && t.messages == s.messages && t.watermarks == s.watermarks
              && var key := ReceiptKey(stream, kind);
                 t.receipts == if (kind != 1 && kind != 2) || through >= 0x8000_0000_0000_0000
                                  || (key in s.receipts && s.receipts[key] >= through) then s.receipts
                               else s.receipts[key := through]
            case DeleteChat(chat) =>
              && t.watermarks == s.watermarks
              && (forall row :: row in t.messages <==> row in s.messages && row.stream.chat != chat)
              && (forall k :: k in t.receipts <==> k in s.receipts && k.stream.chat != chat)
              && forall k :: k in t.receipts ==> t.receipts[k] == s.receipts[k]
            case WipeConversations => t == State([], map[], s.watermarks)
  {
    match e
    case Author(stream, _) => NextExceedsStored(s, stream);
    case DeleteChat(chat) =>
      forall row ensures row in Step(s, e).messages <==> row in s.messages && row.stream.chat != chat {
        WithoutChatExactly(s.messages, chat, row);
      }
    case _ =>
  }

  // ---- Runs ----

  function After(s: State, events: seq<Event>): State {
    if events == [] then s else Step(After(s, events[..|events| - 1]), events[|events| - 1])
  }

  /** The lamport given out by the k-th event. */
  function Authored(s: State, events: seq<Event>, k: nat): Mark
    requires k < |events| && events[k].Author?
  {
    Next(After(s, events[..k]), events[k].stream)
  }

  /** The stream's persisted watermark has got to `lamport`. */
  predicate Reached(s: State, stream: Stream, lamport: i64) {
    stream in s.watermarks && s.watermarks[stream] >= lamport
  }

  /** No event lowers a watermark, and authoring raises it to what it gave out. */
  lemma StepClimbs(s: State, e: Event, stream: Stream, lamport: i64)
    requires Reached(s, stream, lamport) || (e.Author? && e.stream == stream && lamport == Next(s, stream))
    ensures Reached(Step(s, e), stream, lamport)
  {
  }

  lemma {:induction false} RunClimbs(s: State, events: seq<Event>, i: nat, j: nat)
    requires i < j <= |events| && events[i].Author?
    ensures Reached(After(s, events[..j]), events[i].stream, Authored(s, events, i))
    decreases j
  {
    hide Step, Next, Reached;
    var n := j - 1;
    assert events[..j][..n] == events[..n] && events[..j][n] == events[n];
    if i == n {
    } else {
      RunClimbs(s, events, i, n);
    }
    StepClimbs(After(s, events[..n]), events[n], events[i].stream, Authored(s, events, i));
  }

  /** Over every run of authoring, ingest, receipts, backfill, chat deletion and
      wiping, the lamports authored in one stream never fall, and each is above
      the one before exactly while the earlier is below the ceiling. */
  lemma LamportsIncrease(s: State, events: seq<Event>, i: nat, j: nat)
    requires i < j < |events| && events[i].Author? && events[j].Author? && events[i].stream == events[j].stream
    ensures Authored(s, events, i) <= Authored(s, events, j)
    ensures Authored(s, events, i) < Authored(s, events, j) <==> Authored(s, events, i) < I64_MAX
  {
    RunClimbs(s, events, i, j);
    NextExceedsStored(After(s, events[..j]), events[j].stream);
  }

  lemma OtherRowsIgnored(rows: seq<Row>, row: Row, stream: Stream)
    requires row.stream != stream
    ensures Highest(Inserted(rows, row), stream) == Highest(rows, stream)
  {
    if row !in rows { assert (rows + [row])[..|rows|] == rows; }
  }

  lemma {:induction false} OtherChatsKept(rows: seq<Row>, chat: nat, stream: Stream)
    requires stream.chat != chat
    ensures Highest(WithoutChat(rows, chat), stream) == Highest(rows, stream)
  {
    if rows == [] {
    } else {
      var n := |rows| - 1;
      OtherChatsKept(rows[..n], chat, stream);
      var kept := WithoutChat(rows[..n], chat);
      assert kept + [] == kept;
      assert (kept + [rows[n]])[..|kept|] == kept;
    }
  }

  /** The stream an event is about, or every stream of a chat, or all. */
  predicate Touches(e: Event, stream: Stream) {
    match e
    case Author(t, _) => t == stream
    case Backfill(t, _) => t == stream
    case StoreRow(row) => row.stream == stream
    case Receipt(t, _, _) => t == stream
    case DeleteChat(chat) => stream.chat == chat
    case WipeConversations => true
  }

  /** Streams are allocated independently. */
  lemma OtherStreamsUnmoved(s: State, e: Event, stream: Stream)
    requires !Touches(e, stream)
    ensures Next(Step(s, e), stream) == Next(s, stream)
  {
    match e
    case Author(t, device) => OtherRowsIgnored(s.messages, Row(t, device, Next(s, t)), stream);
    case StoreRow(row) => OtherRowsIgnored(s.messages, row, stream);
    case DeleteChat(chat) => OtherChatsKept(s.messages, chat, stream);
    case Backfill(_, _) =>
    case Receipt(_, _, _) =>
  }
}
