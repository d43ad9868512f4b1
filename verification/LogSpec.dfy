/** What the log answers, as functions of the window and the session entries. */
module LogSpec {
  import opened Wrappers
  import opened Sequences
  import opened Timers
  import opened Mailbox
  import opened Records
  import opened LogWindow
  import opened LogSession

  datatype ReadState = Data | WouldBlock | Eof | Closed | Failed | Expired
  datatype Response = Response(streamId: string, records: seq<Record>, nextCursor: nat, state: ReadState, error: Option<Error>)
  datatype Diag = PushAfterTerminal
  type Sent = Mailbox.Output<Response, Diag>

  datatype Resolution = ToData | Terminal(state: ReadState, error: Option<Error>) | ToExpired(next: nat) | CaughtUpLive

  function Classify(w: WindowState, c: nat): Resolution {
    if c > w.head then ToExpired(w.head)
    else if w.floor > 0 && c + 1 < w.floor then ToExpired(w.floor - 1)
    else if c < w.head then ToData
    else
      match w.lifecycle
      case Sealed => Terminal(Eof, None)
      case Closed => Terminal(ReadState.Closed, None)
      case Failed(e) => Terminal(ReadState.Failed, Some(e))
      case Live => CaughtUpLive
  }

  /** The answer to a read at a position, None when it is to wait. */
  function AnswerAt(w: WindowState, id: string, q: Request): Option<Response> {
    match Classify(w, q.cursor)
    case ToData =>
      var records := Scan(w, q.cursor, q.limits);
      Some(Response(id, records, LastSeq(q.cursor, records), Data, None))
    case Terminal(state, error) => Some(Response(id, [], q.cursor, state, error))
    case ToExpired(next) => Some(Response(id, [], next, Expired, None))
    case CaughtUpLive => None
  }

  /** A data answer carries exactly the history after the cursor up to the next
      cursor, as the longest batch its limits allow, and moves on exactly
      when some record is allowed. */
  lemma DataIsHistory(w: WindowState, history: seq<Bytes>, id: string, q: Request)
    requires Dense(w, history) && AnswerAt(w, id, q).Some? && AnswerAt(w, id, q).value.state == Data
    ensures var r := AnswerAt(w, id, q).value;
      && q.cursor <= r.nextCursor <= |history| && r.records == Records.Entries(history, q.cursor, r.nextCursor)
      && Fits(q.limits, r.records)
      && (forall m | r.nextCursor < m <= |history| :: !Fits(q.limits, Records.Entries(history, q.cursor, m)))
      && (r.nextCursor > q.cursor <==> q.limits.maxRecords != Some(0))
      && Evicted(w) <= r.nextCursor
  {
    ScanIsHistory(w, history, q.cursor, q.limits);
  }

  /** A position is expired exactly when it lies beyond the head or below what
      is retained; the next position offered is then a readable one. */
  lemma ExpiredExactly(w: WindowState, history: seq<Bytes>, id: string, q: Request)
    requires Dense(w, history)
    ensures AnswerAt(w, id, q).Some? && AnswerAt(w, id, q).value.state == Expired
       <==> !(Evicted(w) <= q.cursor <= w.head)
    ensures AnswerAt(w, id, q).Some? && AnswerAt(w, id, q).value.state == Expired ==>
      Evicted(w) <= AnswerAt(w, id, q).value.nextCursor <= w.head
  {
  }

  /** A read waits exactly at the head of a live log. */
  lemma WaitsExactly(w: WindowState, id: string, q: Request)
    ensures AnswerAt(w, id, q).None? <==> w.lifecycle == Live && q.cursor == w.head && Evicted(w) <= w.head
  {
  }

  /* ---------- Chained answers ---------- */

  /** Successive data answers, each read from the cursor the last one gave, with
      the histories they were read from. */
  ghost predicate Chained(cursors: seq<nat>, batches: seq<seq<Record>>, histories: seq<seq<Bytes>>) {
    && |cursors| == |batches| + 1 && |histories| == |batches|
    && (forall i | 0 < i < |histories| :: histories[i - 1] <= histories[i])
    && (forall i | 0 <= i < |batches| ::
          cursors[i] <= cursors[i + 1] <= |histories[i]|
          && batches[i] == Records.Entries(histories[i], cursors[i], cursors[i + 1]))
  }

  /** They concatenate to one contiguous slice of the history: nothing twice,
      nothing skipped, whatever was pushed and evicted in between. */
  lemma {:induction false} ChainIsContiguous(cursors: seq<nat>, batches: seq<seq<Record>>, histories: seq<seq<Bytes>>)
    requires Chained(cursors, batches, histories) && batches != []
    ensures cursors[0] <= cursors[|batches|] <= |histories[|batches| - 1]|
    ensures Flat(batches) == Records.Entries(histories[|batches| - 1], cursors[0], cursors[|batches|])
    decreases |batches|
  {
    var n := |batches| - 1;
    if n == 0 {
      assert Flat(batches[..0]) == [];
    } else {
      ChainShorter(cursors, batches, histories);
      ChainIsContiguous(cursors[..n + 1], batches[..n], histories[..n]);
      hide Records.Entries;
      EntriesJoin(histories[n - 1], histories[n], cursors[0], cursors[n], cursors[n + 1]);
    }
  }

  lemma ChainShorter(cursors: seq<nat>, batches: seq<seq<Record>>, histories: seq<seq<Bytes>>)
    requires Chained(cursors, batches, histories) && |batches| > 1
    ensures Chained(cursors[..|batches|], batches[..|batches| - 1], histories[..|batches| - 1])
  {
    hide Records.Entries;
  }

  /* ---------- Held reads ---------- */

  function HeldTable(entries: map<string, Entry>): Timers.Table<Request> {
    map id | id in entries :: entries[id].held
  }

  /** Held reads wait at the head of a live log, so they are unanswerable now
      and answerable as soon as anything happens. */
  ghost predicate AtHead(w: WindowState, entries: map<string, Entry>) {
    forall id | IsHeld(entries, id) :: entries[id].held.value.request.cursor == w.head && w.lifecycle == Live
  }

  /** Every held read can be answered, and not by an expiry. */
  ghost predicate Answerable(w: WindowState, entries: map<string, Entry>) {
    forall id | IsHeld(entries, id) ::
      AnswerAt(w, id, entries[id].held.value.request).Some?
      && AnswerAt(w, id, entries[id].held.value.request).value.state != Expired
  }

  /** After a push every read that waited gets data; it is the new record. */
  lemma PushWakes(w: WindowState, w': WindowState, history: seq<Bytes>, payload: Bytes, entries: map<string, Entry>)
    requires Dense(w, history) && AtHead(w, entries) && w.lifecycle == Live
    requires w' == w.(records := w.records + [Record(w.head + 1, payload)], head := w.head + 1)
    ensures Answerable(w', entries)
    ensures forall id | IsHeld(entries, id) ::
      AnswerAt(w', id, entries[id].held.value.request).value.state == Data
      && (entries[id].held.value.request.limits.maxRecords != Some(0) ==>
            AnswerAt(w', id, entries[id].held.value.request).value.records == [Record(w'.head, payload)])
  {
    assert Dense(w', history + [payload]);
    forall id | IsHeld(entries, id)
      ensures AnswerAt(w', id, entries[id].held.value.request).Some?
      ensures AnswerAt(w', id, entries[id].held.value.request).value.state == Data
      ensures entries[id].held.value.request.limits.maxRecords != Some(0) ==>
            AnswerAt(w', id, entries[id].held.value.request).value.records == [Record(w'.head, payload)]
    {
      DataIsHistory(w', history + [payload], id, entries[id].held.value.request);
    }
  }

  /** After the log ends every read that waited gets the terminal state. */
  lemma EndWakes(w: WindowState, lifecycle: Lifecycle, history: seq<Bytes>, entries: map<string, Entry>)
    requires Dense(w, history) && AtHead(w, entries) && lifecycle != Live
    ensures Answerable(w.(lifecycle := lifecycle), entries)
  {
  }

  /* ---------- Releasing ---------- */

  function Release1(w: WindowState, id: string, e: Entry): Entry {
    if e.held.Some? && AnswerAt(w, id, e.held.value.request).Some? then
      var r := AnswerAt(w, id, e.held.value.request).value;
      e.(held := None, watermark := if r.state == Data then r.nextCursor else e.watermark)
    else e
  }

  function Wake1(w: WindowState, id: string, e: Entry): seq<Sent> {
    if e.held.Some? && AnswerAt(w, id, e.held.value.request).Some? then
      CancelOf(e.held) + [ReadResponse(AnswerAt(w, id, e.held.value.request).value)]
    else []
  }

  /** The outputs of waking the streams `ids` in that order. */
  function Wakes(w: WindowState, entries: map<string, Entry>, ids: seq<string>): seq<Sent> {
    if ids == [] then []
    else
      var id := ids[|ids| - 1];
      Wakes(w, entries, ids[..|ids| - 1]) + if id in entries then Wake1(w, id, entries[id]) else []
  }

  /* ---------- Watermarks ---------- */

  /** Watermarks stay within the log; `delivered` holds for every stream with a
      data answer the cursor of the last one, which is its watermark; and while
      evictions were safe none of those positions has been evicted. */
  ghost predicate Watermarked(w: WindowState, entries: map<string, Entry>, delivered: map<string, nat>, safe: bool) {
    && (forall id | id in entries :: entries[id].watermark <= w.head)
    && forall id | id in delivered ::
         id in entries && entries[id].watermark == delivered[id] && (safe ==> Evicted(w) <= delivered[id])
  }
}
