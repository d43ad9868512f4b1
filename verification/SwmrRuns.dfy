/** The single-writer mailbox as a state machine on values, and what its runs
    keep. */
module SwmrRuns {
  import opened Wrappers
  import opened Timers
  import opened Mailbox
  import opened SwmrSpec

  datatype Input =
    | SnapshotPush(writer: string, payload: Bytes)
    | DeltaPush(writer: string, payload: Bytes)
    | ProducerReset(writer: string, detail: Option<Bytes>)
    | Seal
    | Close(error: Option<Error>)
    | Read(streamId: string, q: Request)
    | EndStream(streamId: string)
    | TimerExpired(token: int)

  datatype Config = Config(stopWhen: StopWhen, maxDeltas: Option<nat>)

  /** The whole mailbox, with everything its writer was accepted to say. */
  datatype Box = Box(
    store: Store,
    history: History,
    writer: Option<string>,
    streams: Table<Request>,
    order: seq<string>,
    nextToken: int)

  function NewBox(): Box { Box(Store(None, [], 0, false, false, None, None, None), map[], None, map[], [], 1) }

  /* ---------- One step ---------- */

  function DeltaRefusal(s: Store, bound: Option<string>, writer: string, maxDeltas: Option<nat>): Option<DiagCode> {
    if Refusal(s, bound, writer).Some? then Refusal(s, bound, writer)
    else if s.snapshot.None? then Some(DeltaBeforeSnapshot)
    else if maxDeltas.Some? && |s.deltas| >= maxDeltas.value then Some(RetentionBoundExceeded)
    else None
  }

  /** The writer bound after a producer input: the first one that gets so far. */
  function Bound(s: Store, bound: Option<string>, writer: string): Option<string> {
    if s.sealed || s.closed || bound.Some? then bound else Some(writer)
  }

  function WriterAfter(b: Box, input: Input): Option<string> {
    match input
    case SnapshotPush(writer, _) => Bound(b.store, b.writer, writer)
    case DeltaPush(writer, _) => Bound(b.store, b.writer, writer)
    case ProducerReset(writer, _) => Bound(b.store, b.writer, writer)
    case _ => b.writer
  }

  function Refused(c: Config, b: Box, input: Input): Option<DiagCode> {
    match input
    case SnapshotPush(writer, _) => Refusal(b.store, b.writer, writer)
    case DeltaPush(writer, _) => DeltaRefusal(b.store, b.writer, writer, c.maxDeltas)
    case ProducerReset(writer, _) => Refusal(b.store, b.writer, writer)
    case _ => None
  }

  /** A second seal or close does nothing. */
  predicate Repeated(b: Box, input: Input) { (input.Seal? && b.store.sealed) || (input.Close? && b.store.closed) }

  function StoreAfter(s: Store, input: Input): Store {
    match input
    case SnapshotPush(_, payload) => SnapshotTaken(s, payload)
    case DeltaPush(_, payload) => DeltaTaken(s, payload)
    case ProducerReset(_, detail) => ResetTaken(s, detail)
    case Seal => s.(sealed := true)
    case Close(error) => s.(closed := true, closeError := error)
    case _ => s
  }

  function HistoryAfter(s: Store, h: History, input: Input): History {
    match input
    case SnapshotPush(_, payload) => SnapshotRecorded(s, h, payload)
    case DeltaPush(_, payload) => DeltaRecorded(s, h, payload)
    case _ => h
  }

  function StopOf(input: Input): seq<Sent> {
    match input
    case Close(error) => [ProducerStop(if error.Some? then StopFailed else StopClosed)]
    case _ => []
  }

  /** A producer input in full: refused, repeated, or taken and published to the
      held reads, a producer reset taking their positions away. */
  ghost predicate Produces(c: Config, b: Box, input: Input, t: Box, out: seq<Sent>) {
    if Refused(c, b, input).Some? then t == b.(writer := WriterAfter(b, input)) && out == [Diagnose(Refused(c, b, input).value)]
    else if Repeated(b, input) then t == b && out == []
    else
      var s, reply := StoreAfter(b.store, input), Replier(StoreAfter(b.store, input), input.ProducerReset?);
      && t == b.(store := s, history := HistoryAfter(b.store, b.history, input), writer := WriterAfter(b, input),
                 streams := Released(reply, b.streams))
      && out == Answers(reply, b.streams, b.order) + StopOf(input)
  }

  ghost predicate Steps(c: Config, b: Box, input: Input, t: Box, out: seq<Sent>) {
    match input
    case Read(id, q) =>
      var r := Resolve(b.store, id, q);
      && t == b.(streams := b.streams[id := Parked(r, q, q.timeoutMs, b.nextToken)], order := Listed(b.order, b.streams, id),
                 nextToken := NextToken(r, q.timeoutMs, b.nextToken))
      && out == CancelOf(HeldOf(b.streams, id)) + Replied(r, q.timeoutMs, b.nextToken)
    case EndStream(id) =>
      && t == b.(streams := b.streams - {id}, order := Without(b.order, id))
      && out == EndOutputs(b.streams, id, c.stopWhen)
    case TimerExpired(token) => Fires(b, token, t, out)
    case _ => Produces(c, b, input, t, out)
  }

  predicate FromProducer(input: Input) { !input.Read? && !input.EndStream? && !input.TimerExpired? }

  lemma RefusedStep(c: Config, b: Box, input: Input, code: DiagCode, t: Box)
    requires FromProducer(input) && Refused(c, b, input) == Some(code) && t == b.(writer := WriterAfter(b, input))
    ensures Steps(c, b, input, t, [Diagnose(code)])
    ensures Diagnose(code).Diagnostic?
  {
  }

  lemma RepeatedStep(c: Config, b: Box, input: Input)
    requires Repeated(b, input)
    ensures Steps(c, b, input, b, [])
  {
  }

  /** An accepted producer input, before its sweep. */
  ghost predicate Takes(c: Config, b: Box, input: Input, t: Box) {
    && FromProducer(input) && Refused(c, b, input).None? && !Repeated(b, input)
    && t == b.(store := StoreAfter(b.store, input), history := HistoryAfter(b.store, b.history, input), writer := WriterAfter(b, input))
  }

  lemma TakenStep(c: Config, b: Box, input: Input, t: Box, t': Box, out: seq<Sent>)
    requires Takes(c, b, input, t)
    requires t' == t.(streams := Released(Replier(t.store, input.ProducerReset?), t.streams))
    requires out == Answers(Replier(t.store, input.ProducerReset?), t.streams, t.order)
    ensures Steps(c, b, input, t', out + StopOf(input)) && (!input.Close? ==> out + StopOf(input) == out)
  {
    hide StoreAfter, HistoryAfter, WriterAfter, Refused, Repeated, Released, Replier, Answers;
  }

  /** The read a live token was set for is probed; other tokens are ignored. */
  ghost predicate Fires(b: Box, token: int, t: Box, out: seq<Sent>) {
    && ((forall id :: !Holds(b.streams, id, token)) ==> t == b && out == [])
    && forall id | Holds(b.streams, id, token) ::
         var a := Resolve(b.store, id, b.streams[id].value.request.(timeoutMs := Some(0)));
         t == b.(streams := b.streams[id := None]) && a.Some? && out == [ReadResponse(a.value)]
  }

  lemma ReadStep(c: Config, b: Box, id: string, q: Request, t: Box, out: seq<Sent>)
    requires var r := Resolve(b.store, id, q);
      && t == b.(streams := b.streams[id := None][id := Parked(r, q, q.timeoutMs, b.nextToken)],
                 order := Listed(b.order, b.streams, id), nextToken := NextToken(r, q.timeoutMs, b.nextToken))
      && out == CancelOf(HeldOf(b.streams, id)) + Replied(r, q.timeoutMs, b.nextToken)
    ensures Steps(c, b, Read(id, q), t, out)
  {
    hide Resolve, Listed, CancelOf, Replied;
    var x := Parked(Resolve(b.store, id, q), q, q.timeoutMs, b.nextToken);
    assert b.streams[id := None][id := x] == b.streams[id := x];
  }

  /** Every step keeps the retained part in agreement with the history, which
      only grows, and (epoch, head) never goes back. */
  lemma StepKeeps(c: Config, b: Box, input: Input, t: Box, out: seq<Sent>)
    requires Retains(b.store, b.history) && Steps(c, b, input, t, out)
    ensures Retains(t.store, t.history) && Progress(b.store, b.history, t.store, t.history)
  {
    hide Answers, Released, Replier, Listed, Resolve;
    match input
    case SnapshotPush(_, payload) => SnapshotKeeps(b.store, b.history, payload);
    case DeltaPush(_, payload) => if b.store.snapshot.Some? { DeltaKeeps(b.store, b.history, payload); }
    case ProducerReset(_, detail) => ResetKeeps(b.store, b.history, detail);
    case TimerExpired(token) =>
      if id :| Holds(b.streams, id, token) { }
    case _ =>
  }

  /* ---------- What is answered ---------- */

  /** The read that a response to `id` at this step answers. */
  ghost predicate Asked(b: Box, input: Input, id: string, q: Request) {
    match input
    case Read(streamId, asked) => id == streamId && q == asked
    case EndStream(_) => false
    case TimerExpired(token) => Holds(b.streams, id, token) && q == b.streams[id].value.request.(timeoutMs := Some(0))
    case _ => HeldOf(b.streams, id).Some? && q == b.streams[id].value.request
  }

  /** Its position. */
  function AskedCursor(b: Box, input: Input, id: string): Option<Cursor> {
    if input.Read? then input.q.cursor
    else if HeldOf(b.streams, id).Some? then b.streams[id].value.request.cursor
    else None
  }

  /** `r` answers, in the store the step leaves, the read just made or one that
      was held; only a producer reset forces a notice. */
  ghost predicate Answered(b: Box, input: Input, t: Box, r: Response) {
    exists q :: Asked(b, input, r.streamId, q) && Reply(t.store, input.ProducerReset?, r.streamId, q) == Some(r)
  }

  lemma ReplyNames(s: Store, resetting: bool, id: string, q: Request)
    ensures Reply(s, resetting, id, q).Some? ==> Reply(s, resetting, id, q).value.streamId == id
  {
  }

  lemma ResponseAnswers(c: Config, b: Box, input: Input, t: Box, out: seq<Sent>, r: Response)
    requires Steps(c, b, input, t, out) && ReadResponse(r) in out
    ensures Answered(b, input, t, r)
  {
    hide Resolve, Reply, Answers, CancelOf, Released;
    match input
    case Read(id, q) =>
      assert ReadResponse(r) !in CancelOf<Request, Response, Diag>(HeldOf(b.streams, id)) by { CancelsOnly(HeldOf(b.streams, id)); }
      ReadAnswers(b, id, q, t, r);
    case EndStream(id) =>
      CancelsOnly(HeldOf(b.streams, id));
      assert false;
    case TimerExpired(token) =>
      var id :| Holds(b.streams, id, token);
      ProbeReply(t.store, id, b.streams[id].value.request.(timeoutMs := Some(0)));
      assert Asked(b, input, id, b.streams[id].value.request.(timeoutMs := Some(0)));
    case _ => SweepAnswers(c, b, input, t, out, r);
  }

  lemma CancelsOnly(held: Option<Held<Request>>)
    ensures forall r :: ReadResponse(r) !in CancelOf<Request, Response, Diag>(held)
  {
  }

  lemma ProbeReply(s: Store, id: string, q: Request)
    ensures Reply(s, false, id, q) == Resolve(s, id, q)
    ensures Resolve(s, id, q).Some? ==> Resolve(s, id, q).value.streamId == id
  {
  }

  lemma ReadAnswers(b: Box, id: string, q: Request, t: Box, r: Response)
    requires t.store == b.store && Resolve(b.store, id, q) == Some(r)
    ensures Answered(b, Read(id, q), t, r)
  {
    ProbeReply(t.store, id, q);
    hide Resolve, Reply;
    assert Asked(b, Read(id, q), r.streamId, q);
  }

  lemma SweepAnswers(c: Config, b: Box, input: Input, t: Box, out: seq<Sent>, r: Response)
    requires Produces(c, b, input, t, out) && ReadResponse(r) in out
    requires FromProducer(input)
    ensures Answered(b, input, t, r)
  {
    hide Reply, Answers, Released, Resolve;
    var reply := Replier(t.store, input.ProducerReset?);
    assert ReadResponse(r) in Answers<Request, Response, Diag>(reply, b.streams, b.order);
    AnswersReply<Request, Response, Diag>(reply, b.streams, b.order, r);
    var id :| id in b.order && AnswerTo(reply, id, HeldOf(b.streams, id)) == Some(r);
    var q := b.streams[id].value.request;
    ReplyNames(t.store, input.ProducerReset?, id, q);
    assert Asked(b, input, r.streamId, q);
  }

  /* ---------- Runs ---------- */

  /** The states before, between and after the inputs, with what each sent. */
  datatype Run = Run(boxes: seq<Box>, inputs: seq<Input>, outs: seq<seq<Sent>>)

  ghost predicate IsRun(c: Config, run: Run) {
    && |run.boxes| == |run.inputs| + 1 == |run.outs| + 1
    && run.boxes[0] == NewBox()
    && forall i | 0 <= i < |run.inputs| :: Steps(c, run.boxes[i], run.inputs[i], run.boxes[i + 1], run.outs[i])
  }

  lemma {:induction false} RunRetains(c: Config, run: Run, j: nat)
    requires IsRun(c, run) && j < |run.boxes|
    ensures Retains(run.boxes[j].store, run.boxes[j].history)
  {
    hide Steps;
    if j > 0 {
      RunRetains(c, run, j - 1);
      assert Steps(c, run.boxes[j - 1], run.inputs[j - 1], run.boxes[j], run.outs[j - 1]);
      StepKeeps(c, run.boxes[j - 1], run.inputs[j - 1], run.boxes[j], run.outs[j - 1]);
    }
  }

  /** Between any two moments of a run the history only grew and (epoch, head)
      did not go back. */
  lemma {:induction false} RunProgress(c: Config, run: Run, i: nat, j: nat)
    requires IsRun(c, run) && i <= j < |run.boxes|
    ensures Progress(run.boxes[i].store, run.boxes[i].history, run.boxes[j].store, run.boxes[j].history)
    decreases j
  {
    hide Steps, Retains;
    if i < j {
      RunProgress(c, run, i, j - 1);
      RunRetains(c, run, j - 1);
      assert Steps(c, run.boxes[j - 1], run.inputs[j - 1], run.boxes[j], run.outs[j - 1]);
      StepKeeps(c, run.boxes[j - 1], run.inputs[j - 1], run.boxes[j], run.outs[j - 1]);
    }
  }

  /** A cursor in any response of a run is one the node has handed out, and
      still is at every later moment. */
  lemma HandedOutIsIssued(c: Config, run: Run, i: nat, r: Response, j: nat)
    requires IsRun(c, run) && i < |run.outs| && ReadResponse(r) in run.outs[i] && r.nextCursor.Some? && i < j < |run.boxes|
    ensures Issued(run.boxes[j].history, r.nextCursor.value)
  {
    hide Steps, Retains, Reply, Progress, Issued;
    var b, t := run.boxes[i], run.boxes[i + 1];
    assert Steps(c, b, run.inputs[i], t, run.outs[i]);
    ResponseAnswers(c, b, run.inputs[i], t, run.outs[i], r);
    var q :| Asked(b, run.inputs[i], r.streamId, q) && Reply(t.store, run.inputs[i].ProducerReset?, r.streamId, q) == Some(r);
    RunRetains(c, run, i + 1);
    NextCursorIssued(t.store, t.history, run.inputs[i].ProducerReset?, r.streamId, q);
    RunProgress(c, run, i + 1, j);
    IssuedStays(t.store, t.history, run.boxes[j].store, run.boxes[j].history, r.nextCursor.value);
  }

  /** The delta slice of an incremental answer is in range and goes from the
      cursor to the next cursor. */
  ghost predicate InRange(s: Store, c: Cursor, r: Response) {
    r.state == Data && r.snapshot.None? ==>
      && s.snapshot.Some? && c.epoch == s.epoch
      && 0 <= c.seqNo - s.snapshot.value.seqNo <= |s.deltas| && r.deltas == s.deltas[c.seqNo - s.snapshot.value.seqNo..]
      && r.nextCursor == Some(Cursor(Head(s), s.epoch)) && Chains(r.deltas, c.seqNo, Head(s))
  }

  lemma AnswerInRange(s: Store, h: History, resetting: bool, id: string, q: Request)
    requires Retains(s, h) && q.cursor.Some? && Issued(h, q.cursor.value) && Reply(s, resetting, id, q).Some?
    ensures InRange(s, q.cursor.value, Reply(s, resetting, id, q).value)
    ensures Reply(s, resetting, id, q).value.resetReason != Some(InvalidResumeSeq)
  {
    AnswerToIssued(s, h, resetting, id, q);
  }

  /** In every run: a cursor handed out in any response, to whatever read, is at
      no later moment answered InvalidResumeSeq, by whomever it is presented,
      and a delta slice from it is in range. */
  lemma HandedOutStaysValid(c: Config, run: Run, i: nat, r: Response, j: nat, resetting: bool, id: string, q: Request)
    requires IsRun(c, run) && i < |run.outs| && ReadResponse(r) in run.outs[i] && r.nextCursor.Some? && i < j < |run.boxes|
    requires q.cursor == r.nextCursor && Reply(run.boxes[j].store, resetting, id, q).Some?
    ensures var a := Reply(run.boxes[j].store, resetting, id, q).value;
      a.resetReason != Some(InvalidResumeSeq) && InRange(run.boxes[j].store, r.nextCursor.value, a)
  {
    hide *;
    HandedOutIsIssued(c, run, i, r, j);
    RunRetains(c, run, j);
    AnswerInRange(run.boxes[j].store, run.boxes[j].history, resetting, id, q);
  }

  /** The same of the responses actually sent: one that answers a read from a
      cursor handed out before. */
  lemma ResponsesStayValid(c: Config, run: Run, i: nat, r: Response, j: nat, a: Response)
    requires IsRun(c, run) && i <= j < |run.outs| && ReadResponse(r) in run.outs[i] && ReadResponse(a) in run.outs[j]
    requires r.nextCursor.Some? && AskedCursor(run.boxes[j], run.inputs[j], a.streamId) == r.nextCursor
    ensures a.resetReason != Some(InvalidResumeSeq) && InRange(run.boxes[j + 1].store, r.nextCursor.value, a)
  {
    hide Steps, Reply, InRange;
    var b, t := run.boxes[j], run.boxes[j + 1];
    assert Steps(c, b, run.inputs[j], t, run.outs[j]);
    ResponseAnswers(c, b, run.inputs[j], t, run.outs[j], a);
    var q :| Asked(b, run.inputs[j], a.streamId, q) && Reply(t.store, run.inputs[j].ProducerReset?, a.streamId, q) == Some(a);
    AskedHasCursor(b, run.inputs[j], a.streamId, q);
    HandedOutStaysValid(c, run, i, r, j + 1, run.inputs[j].ProducerReset?, a.streamId, q);
  }

  lemma AskedHasCursor(b: Box, input: Input, id: string, q: Request)
    requires Asked(b, input, id, q)
    ensures q.cursor == AskedCursor(b, input, id)
  {
  }
}
