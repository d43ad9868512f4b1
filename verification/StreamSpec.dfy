/** The bounded stream's ring and the answers it gives, as values. */
module StreamSpec {
  import opened Wrappers
  import opened Sequences
  import opened Orders
  import opened Records
  import opened Timers
  import opened Mailbox

  type I64 = x: int | -0x8000_0000_0000_0000 <= x < 0x8000_0000_0000_0000

  datatype ReadState = Data | WouldBlock | Eof | Closed | Failed | Dropped
  datatype ErrorCode = UnknownStream | ProducerError | Internal | SlowConsumer
  datatype Error = Error(code: ErrorCode, message: Option<string>)
  datatype Request = Request(maxRecords: Option<I64>, maxBytes: Option<I64>, timeoutMs: Option<I64>)
  datatype Response = Response(streamId: string, records: seq<Record>, nextPosition: nat, state: ReadState, error: Option<Error>)
  datatype Diag = PushAfterTerminal
  type Sent = Mailbox.Output<Response, Diag>

  datatype Reader = Reader(cursor: nat, held: Option<Held<Request>>)
  datatype Ring = Ring(
    capacity: int,
    head: nat,
    payloads: map<int, Bytes>,
    sealed: bool,
    closed: bool,
    closeError: Option<Error>)

  predicate PositionLess(a: int, b: int) { a < b }

  /** The lowest retained position, one past the head of an empty ring. */
  function Floor(r: Ring): int {
    if r.payloads == map[] then r.head + 1
    else
      assert r.payloads.Keys != {};
      Least(PositionLess, r.payloads.Keys)
  }

  /** The position below which everything pushed has been overwritten. */
  function Evicted(r: Ring): nat { Max(0, r.head - r.capacity) }

  /** The ring holds exactly the last `capacity` pushes. */
  ghost predicate Keeps(r: Ring, history: seq<Bytes>) {
    && r.capacity > 0 && r.head == |history|
    && (forall i :: i in r.payloads <==> Evicted(r) < i <= r.head)
    && forall i | i in r.payloads :: Evicted(r) < i <= r.head && r.payloads[i] == history[i - 1]
  }

  lemma FloorIs(r: Ring, history: seq<Bytes>)
    requires Keeps(r, history)
    ensures Floor(r) == Evicted(r) + 1
  {
    if r.head > 0 {
      assert r.head in r.payloads && Evicted(r) + 1 in r.payloads;
    } else {
      assert forall i :: i in r.payloads <==> 0 < i <= 0;
      assert r.payloads == map[];
    }
  }

  lemma {:induction false} RangeSize(keys: set<int>, lo: int, hi: int)
    requires lo <= hi && forall i :: i in keys <==> lo < i <= hi
    ensures |keys| == hi - lo
    decreases hi - lo
  {
    if lo == hi {
      assert forall i :: i in keys <==> false;
    } else {
      RangeSize(keys - {hi}, lo, hi - 1);
    }
  }

  /** A push inserts at the new head and, past capacity, drops the oldest. */
  function Pushed(r: Ring, payload: Bytes): Ring {
    r.(head := r.head + 1, payloads := Overwritten(r.payloads, r.capacity, r.head + 1, payload))
  }

  function Overwritten(ring: map<int, Bytes>, capacity: int, at: int, payload: Bytes): map<int, Bytes> {
    var all := ring[at := payload];
    if |all| > capacity then all - {at - capacity} else all
  }

  lemma PushKeeps(r: Ring, history: seq<Bytes>, payload: Bytes)
    requires Keeps(r, history)
    ensures Keeps(Pushed(r, payload), history + [payload])
  {
    var all := r.payloads[r.head + 1 := payload];
    RangeSize(all.Keys, Evicted(r), r.head + 1);
    assert |all| == |all.Keys|;
    var s := Pushed(r, payload);
    forall i ensures i in s.payloads <==> Evicted(s) < i <= s.head {
      assert i in r.payloads <==> Evicted(r) < i <= r.head;
    }
  }

  /* ---------- Answers ---------- */

  /** Limits that are absent, or not positive for records or negative for bytes,
      do not limit. */
  function Bounds(q: Request): Limits {
    Limits(if q.maxRecords.Some? && q.maxRecords.value > 0 then Some(q.maxRecords.value) else None,
           if q.maxBytes.Some? && q.maxBytes.value >= 0 then Some(q.maxBytes.value) else None)
  }

  function PayloadAt(r: Ring, i: int): Bytes { if i in r.payloads then r.payloads[i] else [] }

  /** The retained records after a position. */
  function Available(r: Ring, cursor: nat): (recs: seq<Record>)
    ensures |recs| == Max(0, r.head - cursor)
    ensures forall i | 0 <= i < |recs| :: recs[i].seqNo == cursor + i + 1 && recs[i].payload == PayloadAt(r, recs[i].seqNo)
  {
    seq(Max(0, r.head - cursor), i requires 0 <= i < Max(0, r.head - cursor) => Record(cursor + i + 1, PayloadAt(r, cursor + i + 1)))
  }

  function Batch(r: Ring, q: Request, cursor: nat): seq<Record> {
    EmptyFits(Bounds(q), Available(r, cursor));
    Available(r, cursor)[..LongestFit(Bounds(q), Available(r, cursor), 0)]
  }

  /** The answer to a reader at `cursor`, None when it is to wait. */
  function Resolve(r: Ring, id: string, q: Request, cursor: nat): Option<Response> {
    if cursor < Floor(r) - 1 then Some(Response(id, [], r.head, Dropped, Some(Error(SlowConsumer, None))))
    else if Batch(r, q, cursor) != [] then
      Some(Response(id, Batch(r, q, cursor), LastSeq(cursor, Batch(r, q, cursor)), Data, None))
    else if r.closed then Some(Response(id, [], cursor, if r.closeError.Some? then Failed else Closed, r.closeError))
    else if r.sealed then Some(Response(id, [], cursor, Eof, None))
    else if q.timeoutMs == Some(0) then Some(Response(id, [], cursor, WouldBlock, None))
    else None
  }

  /** A reader is dropped exactly when more than the capacity behind; it gets
      data exactly when behind within it: the pushes right after its position,
      the longest batch its limits allow, never empty; it waits exactly at the
      head of a live stream, unless it probes. */
  lemma AnswersExactly(r: Ring, history: seq<Bytes>, id: string, q: Request, cursor: nat)
    requires Keeps(r, history) && cursor <= r.head
    ensures var a := Resolve(r, id, q, cursor);
      && (a.Some? && a.value.state == Dropped <==> r.head - cursor > r.capacity)
      && (a.Some? && a.value.state == Data <==> 0 < r.head - cursor <= r.capacity)
      && (a.None? <==> cursor == r.head && !r.sealed && !r.closed && q.timeoutMs != Some(0))
      && (a.Some? && a.value.state == Data ==>
            var next := a.value.nextPosition;
            && cursor < next <= r.head && a.value.records == Entries(history, cursor, next) && Fits(Bounds(q), a.value.records)
            && forall m | next < m <= r.head :: !Fits(Bounds(q), Entries(history, cursor, m)))
      && (a.Some? && a.value.state !in {Data, Dropped} ==> a.value.nextPosition == cursor && a.value.records == [])
  {
    FloorIs(r, history);
    if Evicted(r) <= cursor < r.head {
      AvailableIs(r, history, cursor);
      LongestIsHistory(Bounds(q), history, cursor, r.head);
    }
  }

  /** What is neither dropped nor behind gets how the stream ended, then a
      probe's empty answer; otherwise it waits. */
  lemma AnswerKinds(r: Ring, history: seq<Bytes>, id: string, q: Request, cursor: nat)
    requires Keeps(r, history) && cursor <= r.head
    ensures r.head - cursor > r.capacity ==>
      Resolve(r, id, q, cursor) == Some(Response(id, [], r.head, Dropped, Some(Error(SlowConsumer, None))))
    ensures 0 < r.head - cursor <= r.capacity ==>
      var a := Resolve(r, id, q, cursor); a.Some? && a.value.streamId == id && a.value.state == Data && a.value.error.None?
    ensures cursor == r.head && r.closed ==>
      Resolve(r, id, q, cursor) == Some(Response(id, [], r.head, match r.closeError case None => Closed case Some(_) => Failed,
                                                 r.closeError))
    ensures cursor == r.head && !r.closed && r.sealed ==> Resolve(r, id, q, cursor) == Some(Response(id, [], r.head, Eof, None))
    ensures cursor == r.head && !r.closed && !r.sealed && q.timeoutMs == Some(0) ==>
      Resolve(r, id, q, cursor) == Some(Response(id, [], r.head, WouldBlock, None))
    ensures cursor == r.head && !r.closed && !r.sealed && q.timeoutMs != Some(0) ==> Resolve(r, id, q, cursor).None?
  {
    AnswersExactly(r, history, id, q, cursor);
    hide Floor, Batch, Keeps;
  }

  /** The limits of a read: a positive number of records, and any number of
      payload bytes that is not negative, which the first record may exceed. */
  lemma BoundsExactly(q: Request, recs: seq<Record>)
    ensures Fits(Bounds(q), recs) <==>
      && (q.maxRecords.Some? && q.maxRecords.value > 0 ==> |recs| <= q.maxRecords.value)
      && (q.maxBytes.Some? && q.maxBytes.value >= 0 && |recs| > 1 ==> |Flat(Payloads(recs))| <= q.maxBytes.value)
  {
    FitsExactly(Bounds(q), recs);
  }

  lemma AvailableIs(r: Ring, history: seq<Bytes>, cursor: nat)
    requires Keeps(r, history) && Evicted(r) <= cursor <= r.head
    ensures Available(r, cursor) == Entries(history, cursor, r.head)
  {
    forall i | 0 <= i < r.head - cursor ensures Available(r, cursor)[i] == Entries(history, cursor, r.head)[i] {
      var k := cursor + i + 1;
      assert k in r.payloads && r.payloads[k] == history[k - 1];
    }
  }

  /* ---------- Readers ---------- */

  function HeldTable(readers: map<string, Reader>): Timers.Table<Request> {
    map id | id in readers :: readers[id].held
  }

  /** A held reader waits at the head of a live stream, and does not probe. */
  ghost predicate AtHead(r: Ring, readers: map<string, Reader>) {
    forall id | id in readers && readers[id].held.Some? ::
      readers[id].cursor == r.head && !r.sealed && !r.closed && readers[id].held.value.request.timeoutMs != Some(0)
  }

  /** Where a reader joined, and everything it has been sent since. */
  datatype Journal = Journal(joined: nat, records: seq<Record>)

  /** Every reader was sent exactly the pushes from its join to its cursor. */
  ghost predicate Journaled(history: seq<Bytes>, readers: map<string, Reader>, journals: map<string, Journal>) {
    && journals.Keys == readers.Keys
    && forall id | id in readers ::
         && journals[id].joined <= readers[id].cursor <= |history|
         && journals[id].records == Entries(history, journals[id].joined, readers[id].cursor)
  }

  function Noted(j: Journal, a: Option<Response>): Journal {
    if a.Some? then j.(records := j.records + a.value.records) else j
  }

  /** An answer that does not drop the reader moves it to the next position. */
  function Moved(reader: Reader, a: Option<Response>): nat {
    if a.Some? then a.value.nextPosition else reader.cursor
  }

  lemma AnswerJournaled(r: Ring, history: seq<Bytes>, id: string, q: Request, reader: Reader, j: Journal)
    requires Keeps(r, history) && r.head - reader.cursor <= r.capacity
    requires j.joined <= reader.cursor <= |history| && j.records == Entries(history, j.joined, reader.cursor)
    ensures var a := Resolve(r, id, q, reader.cursor);
      && reader.cursor <= Moved(reader, a) <= |history|
      && Noted(j, a).records == Entries(history, j.joined, Moved(reader, a))
  {
    AnswersExactly(r, history, id, q, reader.cursor);
    var a := Resolve(r, id, q, reader.cursor);
    hide Resolve;
    if a.Some? && a.value.state == Data {
      EntriesJoin(history, history, j.joined, reader.cursor, a.value.nextPosition);
    }
  }

  /* ---------- The sweep ---------- */

  function Cursors(readers: map<string, Reader>): map<string, nat> { map id | id in readers :: readers[id].cursor }

  function ReplyAt(r: Ring, cursors: map<string, nat>, id: string, q: Request): Option<Response> {
    if id in cursors then Resolve(r, id, q, cursors[id]) else None
  }

  function Replier(r: Ring, cursors: map<string, nat>): (string, Request) -> Option<Response> {
    (id, q) => ReplyAt(r, cursors, id, q)
  }

  function HeldAnswer(r: Ring, id: string, reader: Reader): Option<Response> {
    if reader.held.Some? then Resolve(r, id, reader.held.value.request, reader.cursor) else None
  }

  /** How the sweep leaves a reader. */
  function Settled(r: Ring, id: string, reader: Reader): Reader {
    var a := HeldAnswer(r, id, reader);
    if a.Some? then Reader(Moved(reader, a), None) else reader
  }

  function AllSettled(r: Ring, readers: map<string, Reader>): map<string, Reader> {
    map id | id in readers :: Settled(r, id, readers[id])
  }

  function AllNoted(r: Ring, readers: map<string, Reader>, journals: map<string, Journal>): map<string, Journal> {
    map id | id in readers && id in journals :: Noted(journals[id], HeldAnswer(r, id, readers[id]))
  }

  /** No held reader has fallen out of the ring. */
  ghost predicate WithinReach(r: Ring, readers: map<string, Reader>) {
    forall id | id in readers && readers[id].held.Some? :: readers[id].cursor <= r.head <= readers[id].cursor + r.capacity
  }

  /** A sweep keeps every journal complete. */
  lemma SettledJournaled(r: Ring, history: seq<Bytes>, readers: map<string, Reader>, journals: map<string, Journal>)
    requires Keeps(r, history) && Journaled(history, readers, journals) && WithinReach(r, readers)
    ensures Journaled(history, AllSettled(r, readers), AllNoted(r, readers, journals))
  {
    var readers', journals' := AllSettled(r, readers), AllNoted(r, readers, journals);
    hide Resolve, Keeps;
    forall id | id in readers'
      ensures journals'[id].joined <= readers'[id].cursor <= |history|
      ensures journals'[id].records == Entries(history, journals'[id].joined, readers'[id].cursor)
    {
      if readers[id].held.Some? {
        AnswerJournaled(r, history, id, readers[id].held.value.request, readers[id], journals[id]);
      }
    }
  }

  /** A push sends every held reader the new record, and nothing is left held;
      nor is it when the stream ends. */
  lemma PushAnswersAll(r: Ring, history: seq<Bytes>, payload: Bytes, readers: map<string, Reader>)
    requires Keeps(r, history) && AtHead(r, readers)
    ensures WithinReach(Pushed(r, payload), readers)
    ensures forall id | id in readers && readers[id].held.Some? ::
      HeldAnswer(Pushed(r, payload), id, readers[id]) == Some(Response(id, [Record(r.head + 1, payload)], r.head + 1, Data, None))
  {
    var s := Pushed(r, payload);
    PushKeeps(r, history, payload);
    assert Entries(history + [payload], r.head, r.head + 1) == [Record(r.head + 1, payload)];
    forall id | id in readers && readers[id].held.Some?
      ensures s.head == readers[id].cursor + 1
      ensures HeldAnswer(s, id, readers[id]) == Some(Response(id, [Record(r.head + 1, payload)], r.head + 1, Data, None))
    {
      AnswersExactly(s, history + [payload], id, readers[id].held.value.request, readers[id].cursor);
    }
  }

  lemma EndAnswersAll(r: Ring, s: Ring, history: seq<Bytes>, readers: map<string, Reader>)
    requires Keeps(r, history) && AtHead(r, readers) && s == r.(sealed := s.sealed, closed := s.closed, closeError := s.closeError)
    ensures Keeps(s, history) && WithinReach(s, readers)
    ensures s.sealed || s.closed ==> forall id | id in readers && readers[id].held.Some? ::
      var a := HeldAnswer(s, id, readers[id]); a.Some? && a.value.state in {Eof, Closed, Failed}
  {
    assert Evicted(s) == Evicted(r);
    if s.sealed || s.closed {
      forall id | id in readers && readers[id].held.Some?
        ensures HeldAnswer(s, id, readers[id]).Some? && HeldAnswer(s, id, readers[id]).value.state in {Eof, Closed, Failed}
      {
        AnswersExactly(s, history, id, readers[id].held.value.request, readers[id].cursor);
      }
    }
  }

  /** A held read that is probed is answered. */
  lemma ProbeAnswers(r: Ring, history: seq<Bytes>, id: string, reader: Reader)
    requires Keeps(r, history) && reader.held.Some? && reader.cursor == r.head && !r.sealed && !r.closed
    ensures Resolve(r, id, reader.held.value.request.(timeoutMs := Some(0)), reader.cursor)
      == Some(Response(id, [], r.head, WouldBlock, None))
  {
    AnswersExactly(r, history, id, reader.held.value.request.(timeoutMs := Some(0)), reader.cursor);
  }
}
