/** The single-writer snapshot-plus-deltas store, as values: what a read is
    answered, and the full replay the retained part stands for. */
module SwmrSpec {
  import opened Wrappers
  import opened Timers
  import opened Mailbox

  datatype Cursor = Cursor(seqNo: int, epoch: int)
  datatype Snapshot = Snapshot(seqNo: int, payload: Bytes)
  datatype Delta = Delta(baseSeq: int, seqNo: int, payload: Bytes)
  datatype Error = Error(code: int, message: Option<string>)
  datatype ReadState = Data | WouldBlock | Eof | Closed | Failed | Reset
  datatype ResetReason = RetentionExceeded | ProducerRequested | InvalidResumeSeq

  datatype Request = Request(swmrId: string, cursor: Option<Cursor>, timeoutMs: Option<int>)
  datatype Response = Response(
    swmrId: string,
    streamId: string,
    snapshot: Option<Snapshot>,
    deltas: seq<Delta>,
    nextCursor: Option<Cursor>,
    state: ReadState,
    resetReason: Option<ResetReason>,
    error: Option<Error>,
    resetDetail: Option<Bytes>)

  datatype DiagCode = PushAfterTerminal | WriterConflict | DeltaBeforeSnapshot | RetentionBoundExceeded
  datatype Severity = Warn | Fault
  datatype Diag = Diag(severity: Severity, code: DiagCode)
  type Sent = Mailbox.Output<Response, Diag>

  datatype Store = Store(
    snapshot: Option<Snapshot>,
    deltas: seq<Delta>,
    epoch: int,
    sealed: bool,
    closed: bool,
    closeError: Option<Error>,
    resetReason: Option<ResetReason>,
    resetDetail: Option<Bytes>)

  function Head(s: Store): int {
    if s.snapshot.Some? then s.snapshot.value.seqNo + |s.deltas| else 0
  }

  function CurrentCursor(s: Store): Option<Cursor> {
    if s.snapshot.Some? then Some(Cursor(Head(s), s.epoch)) else None
  }

  function CaughtUp(s: Store, streamId: string, q: Request, next: Option<Cursor>): Option<Response> {
    if s.closed then
      Some(Response(q.swmrId, streamId, None, [], next, if s.closeError.Some? then Failed else Closed, None, s.closeError, None))
    else if s.sealed then Some(Response(q.swmrId, streamId, None, [], next, Eof, None, None, None))
    else if q.timeoutMs == Some(0) then Some(Response(q.swmrId, streamId, None, [], next, WouldBlock, None, None, None))
    else None
  }

  function Repair(s: Store, streamId: string, q: Request, reason: ResetReason, detail: Option<Bytes>): Response {
    Response(q.swmrId, streamId, s.snapshot, if s.snapshot.Some? then s.deltas else [], CurrentCursor(s), Reset, Some(reason),
             None, detail)
  }

  /** The answer to a read, or None when it is to be held. */
  function Resolve(s: Store, streamId: string, q: Request): Option<Response> {
    if q.cursor.Some? && q.cursor.value.epoch < s.epoch then
      Some(Repair(s, streamId, q, if s.resetReason.Some? then s.resetReason.value else ProducerRequested, s.resetDetail))
    else if q.cursor.Some? && q.cursor.value.epoch > s.epoch then Some(Repair(s, streamId, q, InvalidResumeSeq, None))
    else if s.snapshot.None? then CaughtUp(s, streamId, q, None)
    else if q.cursor.None? then
      Some(Response(q.swmrId, streamId, s.snapshot, s.deltas, CurrentCursor(s), Data, None, None, None))
    else
      var c := q.cursor.value;
      if c.seqNo < s.snapshot.value.seqNo then Some(Repair(s, streamId, q, RetentionExceeded, None))
      else if c.seqNo == Head(s) then CaughtUp(s, streamId, q, CurrentCursor(s))
      else if c.seqNo > Head(s) then Some(Repair(s, streamId, q, InvalidResumeSeq, None))
      else
        Some(Response(q.swmrId, streamId, None, s.deltas[c.seqNo - s.snapshot.value.seqNo..], CurrentCursor(s), Data, None,
                      None, None))
  }

  /** What a producer reset tells a reader that was holding a position. */
  function ResetNotice(s: Store, streamId: string, q: Request): Response {
    Response(q.swmrId, streamId, None, [], None, Reset, Some(ProducerRequested), None, s.resetDetail)
  }

  /** The answer to a held read when the store has changed, a producer reset
      taking the position away. */
  function Reply(s: Store, resetting: bool, streamId: string, q: Request): Option<Response> {
    if resetting && q.cursor.Some? then Some(ResetNotice(s, streamId, q)) else Resolve(s, streamId, q)
  }

  function Replier(s: Store, resetting: bool): (string, Request) -> Option<Response> {
    (id, q) => Reply(s, resetting, id, q)
  }

  /* ---------- The writer's full history ---------- */

  /** One epoch: its first snapshot and every delta accepted since. */
  datatype EpochLog = EpochLog(first: Bytes, deltas: seq<Bytes>)
  type History = map<int, EpochLog>

  ghost predicate Issued(h: History, c: Cursor) {
    c.epoch in h && 0 <= c.seqNo <= |h[c.epoch].deltas|
  }

  /** The retained part agrees with the history. */
  ghost predicate Retains(s: Store, h: History) {
    && 0 <= s.epoch && (forall e | e in h :: 0 <= e <= s.epoch)
    && s.resetReason in {None, Some(ProducerRequested)}
    && (s.snapshot.Some? <==> s.epoch in h)
    && (s.snapshot.None? ==> s.deltas == [])
    && (s.snapshot.Some? ==>
          var n, all := s.snapshot.value.seqNo, h[s.epoch].deltas;
          && 0 <= n && Head(s) == |all|
          && forall i | 0 <= i < |s.deltas| :: s.deltas[i] == Delta(n + i, n + i + 1, all[n + i]))
  }

  /** The history only grows, and (epoch, head) never goes back. */
  ghost predicate Progress(s: Store, h: History, s': Store, h': History) {
    && (s.epoch < s'.epoch || (s.epoch == s'.epoch && Head(s) <= Head(s')))
    && forall e | e in h :: e in h' && h'[e].first == h[e].first && h[e].deltas <= h'[e].deltas
  }

  lemma IssuedStays(s: Store, h: History, s': Store, h': History, c: Cursor)
    requires Progress(s, h, s', h') && Issued(h, c)
    ensures Issued(h', c)
  {
  }

  /* ---------- What every answer promises ---------- */

  /** Consecutive deltas from position `n` to position `m`. */
  ghost predicate Chains(deltas: seq<Delta>, n: int, m: int) {
    |deltas| == m - n && forall i | 0 <= i < |deltas| :: deltas[i].baseSeq == n + i && deltas[i].seqNo == n + i + 1
  }

  /** Whatever position a read names, the next cursor it is given is the current
      one, which the node has then handed out. */
  lemma NextCursorIssued(s: Store, h: History, resetting: bool, streamId: string, q: Request)
    requires Retains(s, h) && Reply(s, resetting, streamId, q).Some?
    ensures var r := Reply(s, resetting, streamId, q).value;
      r.streamId == streamId && (r.nextCursor.Some? ==> r.nextCursor == CurrentCursor(s) && Issued(h, r.nextCursor.value))
  {
  }

  /** A cursor the node handed out is never answered InvalidResumeSeq; what is
      sent chains without a gap from the cursor, or from the snapshot sent with
      it, to the next cursor. */
  lemma AnswerToIssued(s: Store, h: History, resetting: bool, streamId: string, q: Request)
    requires Retains(s, h) && (q.cursor.Some? ==> Issued(h, q.cursor.value)) && Reply(s, resetting, streamId, q).Some?
    ensures var r := Reply(s, resetting, streamId, q).value;
      && r.resetReason != Some(InvalidResumeSeq)
      && (r.nextCursor.Some? ==> Issued(h, r.nextCursor.value) && r.nextCursor == CurrentCursor(s))
      && (r.snapshot.Some? ==> r.nextCursor.Some? && Chains(r.deltas, r.snapshot.value.seqNo, r.nextCursor.value.seqNo))
      && (r.snapshot.None? && r.state == Data ==>
            q.cursor.Some? && r.nextCursor.Some? && q.cursor.value.epoch == r.nextCursor.value.epoch
            && r.deltas != [] && Chains(r.deltas, q.cursor.value.seqNo, r.nextCursor.value.seqNo))
      && (r.state !in {Data, Reset} ==> r.deltas == [] && r.snapshot.None? && r.nextCursor == q.cursor)
  {
  }

  /** A read that is held now is answered when probed: the timer probe cannot
      be held. */
  lemma ProbeAnswers(s: Store, streamId: string, q: Request)
    requires Resolve(s, streamId, q).None?
    ensures Resolve(s, streamId, q.(timeoutMs := Some(0))).Some?
    ensures var r := Resolve(s, streamId, q.(timeoutMs := Some(0))).value;
      r.state == WouldBlock && r.deltas == [] && r.snapshot.None?
  {
  }

  /* ---------- Held reads ---------- */

  /** Nothing answerable is left waiting. */
  ghost predicate Waiting(s: Store, streams: Table<Request>) {
    forall id | id in streams && streams[id].Some? :: Resolve(s, id, streams[id].value.request).None?
  }

  /* ---------- The writer's inputs ---------- */

  function Diagnose(code: DiagCode): Sent { Diagnostic(Diag(if code == PushAfterTerminal then Warn else Fault, code)) }

  /** Why a producer input is refused: the mailbox ended, or another writer is
      bound. */
  function Refusal(s: Store, bound: Option<string>, writer: string): Option<DiagCode> {
    if s.sealed || s.closed then Some(PushAfterTerminal)
    else if bound.Some? && bound.value != writer then Some(WriterConflict)
    else None
  }

  function SnapshotTaken(s: Store, payload: Bytes): Store {
    s.(snapshot := Some(Snapshot(Head(s), payload)), deltas := [])
  }

  /** A snapshot opens an epoch, and is a compaction in one that is open. */
  function SnapshotRecorded(s: Store, h: History, payload: Bytes): History {
    if s.epoch in h then h else h[s.epoch := EpochLog(payload, [])]
  }

  function DeltaTaken(s: Store, payload: Bytes): Store {
    s.(deltas := s.deltas + [Delta(Head(s), Head(s) + 1, payload)])
  }

  function DeltaRecorded(s: Store, h: History, payload: Bytes): History {
    if s.epoch in h then h[s.epoch := h[s.epoch].(deltas := h[s.epoch].deltas + [payload])] else h
  }

  function ResetTaken(s: Store, detail: Option<Bytes>): Store {
    s.(epoch := s.epoch + 1, snapshot := None, deltas := [], resetReason := Some(ProducerRequested), resetDetail := detail)
  }

  lemma SnapshotKeeps(s: Store, h: History, payload: Bytes)
    requires Retains(s, h)
    ensures Retains(SnapshotTaken(s, payload), SnapshotRecorded(s, h, payload))
    ensures Progress(s, h, SnapshotTaken(s, payload), SnapshotRecorded(s, h, payload))
  {
  }

  lemma DeltaKeeps(s: Store, h: History, payload: Bytes)
    requires Retains(s, h) && s.snapshot.Some?
    ensures Retains(DeltaTaken(s, payload), DeltaRecorded(s, h, payload))
    ensures Progress(s, h, DeltaTaken(s, payload), DeltaRecorded(s, h, payload))
  {
  }

  lemma ResetKeeps(s: Store, h: History, detail: Option<Bytes>)
    requires Retains(s, h)
    ensures Retains(ResetTaken(s, detail), h) && Progress(s, h, ResetTaken(s, detail), h)
  {
  }

  lemma EndKeeps(s: Store, t: Store, history: History)
    requires Retains(s, history) && t == s.(sealed := t.sealed, closed := t.closed, closeError := t.closeError)
    ensures Retains(t, history)
  {
  }

  lemma ReadWaits(s: Store, streams: Table<Request>, id: string, q: Request, token: int)
    requires Waiting(s, streams)
    ensures Waiting(s, streams[id := Parked(Resolve(s, id, q), q, q.timeoutMs, token)])
    ensures streams[id := None][id := Parked(Resolve(s, id, q), q, q.timeoutMs, token)]
         == streams[id := Parked(Resolve(s, id, q), q, q.timeoutMs, token)]
  {
    hide Resolve;
  }

  lemma ReleasedWaits(s: Store, resetting: bool, streams: Table<Request>)
    ensures Waiting(s, Released(Replier(s, resetting), streams))
  {
  }
}
