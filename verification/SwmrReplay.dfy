/** A reader that follows the answers it is sent holds what a full replay of
    the writer's history gives. */
module SwmrReplay {
  import opened Wrappers
  import opened Timers
  import opened Mailbox
  import opened SwmrSpec
  import opened SwmrRuns

  /** The state after the first `n` deltas of an epoch. */
  ghost function Fold<V>(load: Bytes -> V, step: (V, Bytes) -> V, log: EpochLog, n: nat): V
    requires n <= |log.deltas|
  {
    if n == 0 then load(log.first) else step(Fold(load, step, log, n - 1), log.deltas[n - 1])
  }

  ghost function ValueAt<V>(load: Bytes -> V, step: (V, Bytes) -> V, h: History, c: Cursor): V
    requires Issued(h, c)
  {
    Fold(load, step, h[c.epoch], c.seqNo)
  }

  /** The retained snapshot stands for the deltas it replaced. */
  ghost predicate Honest<V>(load: Bytes -> V, step: (V, Bytes) -> V, s: Store, h: History)
    requires Retains(s, h)
  {
    s.snapshot.Some? ==>
      s.snapshot.value.seqNo <= |h[s.epoch].deltas|
      && load(s.snapshot.value.payload) == Fold(load, step, h[s.epoch], s.snapshot.value.seqNo)
  }

  datatype Reader<V> = Reader(value: Option<V>, cursor: Option<Cursor>)

  function ApplyDeltas<V>(step: (V, Bytes) -> V, v: V, deltas: seq<Delta>): V {
    if deltas == [] then v else step(ApplyDeltas(step, v, deltas[..|deltas| - 1]), deltas[|deltas| - 1].payload)
  }

  /** What a reader makes of an answer. */
  function Follow<V>(load: Bytes -> V, step: (V, Bytes) -> V, reader: Reader<V>, r: Response): Reader<V> {
    var base := if r.snapshot.Some? then Some(load(r.snapshot.value.payload))
                else if r.state == Reset then None
                else reader.value;
    Reader(if base.Some? then Some(ApplyDeltas(step, base.value, r.deltas)) else None, r.nextCursor)
  }

  /** The reader's value is the writer's state at the reader's cursor. */
  ghost predicate Faithful<V(!new)>(load: Bytes -> V, step: (V, Bytes) -> V, h: History, reader: Reader<V>) {
    reader.cursor.Some? ==> Issued(h, reader.cursor.value) && reader.value == Some(ValueAt(load, step, h, reader.cursor.value))
  }

  lemma {:induction false} ReplayDeltas<V>(load: Bytes -> V, step: (V, Bytes) -> V, log: EpochLog, n: nat, deltas: seq<Delta>)
    requires n + |deltas| <= |log.deltas|
    requires forall i | 0 <= i < |deltas| :: deltas[i].payload == log.deltas[n + i]
    ensures ApplyDeltas(step, Fold(load, step, log, n), deltas) == Fold(load, step, log, n + |deltas|)
    decreases |deltas|
  {
    if deltas != [] { ReplayDeltas(load, step, log, n, deltas[..|deltas| - 1]); }
  }

  /** Any answer, repaired, incremental or empty, keeps a faithful reader
      faithful. */
  lemma AnswerKeepsFaithful<V(!new)>(load: Bytes -> V, step: (V, Bytes) -> V, s: Store, h: History, resetting: bool,
                                     streamId: string, q: Request, reader: Reader<V>)
    requires Retains(s, h) && Honest(load, step, s, h) && Faithful(load, step, h, reader) && q.cursor == reader.cursor
    requires Reply(s, resetting, streamId, q).Some?
    ensures Faithful(load, step, h, Follow(load, step, reader, Reply(s, resetting, streamId, q).value))
  {
    var r := Reply(s, resetting, streamId, q).value;
    AnswerToIssued(s, h, resetting, streamId, q);
    if r.nextCursor.Some? {
      PayloadsSent(s, h, resetting, streamId, q);
      hide Reply, Resolve, Fold;
      DeltasFold(load, step, s, h, reader, q, r);
    }
  }

  /** Following an answer whose deltas chain from the reader's position, or from
      the snapshot sent, ends on the folded state. */
  lemma DeltasFold<V(!new)>(load: Bytes -> V, step: (V, Bytes) -> V, s: Store, h: History, reader: Reader<V>, q: Request, r: Response)
    requires Retains(s, h) && Honest(load, step, s, h) && Faithful(load, step, h, reader) && q.cursor == reader.cursor
    requires s.snapshot.Some? && r.nextCursor == CurrentCursor(s) && (r.snapshot.Some? ==> r.snapshot == s.snapshot)
    requires r.snapshot.Some? ==> Chains(r.deltas, r.snapshot.value.seqNo, Head(s))
    requires r.snapshot.None? && r.state == Data ==>
      q.cursor.Some? && q.cursor.value.epoch == s.epoch && Chains(r.deltas, q.cursor.value.seqNo, Head(s))
    requires r.snapshot.None? && r.state != Data ==> r.state != Reset && r.deltas == [] && r.nextCursor == q.cursor
    requires forall i | 0 <= i < |r.deltas| ::
      1 <= r.deltas[i].seqNo <= |h[s.epoch].deltas| && r.deltas[i].payload == h[s.epoch].deltas[r.deltas[i].seqNo - 1]
    ensures Faithful(load, step, h, Follow(load, step, reader, r))
  {
    hide Fold;
    var log := h[s.epoch];
    if r.snapshot.Some? {
      ReplayDeltas(load, step, log, s.snapshot.value.seqNo, r.deltas);
    } else if r.state == Data {
      ReplayDeltas(load, step, log, q.cursor.value.seqNo, r.deltas);
    }
  }

  /** The deltas of an answer are the history's, at their positions. */
  lemma PayloadsSent(s: Store, h: History, resetting: bool, streamId: string, q: Request)
    requires Retains(s, h) && Reply(s, resetting, streamId, q).Some? && Reply(s, resetting, streamId, q).value.nextCursor.Some?
    requires q.cursor.Some? ==> Issued(h, q.cursor.value)
    ensures var r := Reply(s, resetting, streamId, q).value;
      s.snapshot.Some? && r.nextCursor.value.epoch == s.epoch && (r.snapshot.Some? ==> r.snapshot == s.snapshot)
      && forall i | 0 <= i < |r.deltas| ::
           1 <= r.deltas[i].seqNo <= |h[s.epoch].deltas| && r.deltas[i].payload == h[s.epoch].deltas[r.deltas[i].seqNo - 1]
  {
  }

  lemma FoldStays<V>(load: Bytes -> V, step: (V, Bytes) -> V, log: EpochLog, log': EpochLog, n: nat)
    requires log.first == log'.first && log.deltas <= log'.deltas && n <= |log.deltas|
    ensures Fold(load, step, log, n) == Fold(load, step, log', n)
  {
    if n > 0 { FoldStays(load, step, log, log', n - 1); }
  }

  lemma FaithfulStays<V(!new)>(load: Bytes -> V, step: (V, Bytes) -> V, s: Store, h: History, s': Store, h': History, reader: Reader<V>)
    requires Progress(s, h, s', h') && Faithful(load, step, h, reader)
    ensures Faithful(load, step, h', reader)
  {
    if reader.cursor.Some? {
      var c := reader.cursor.value;
      IssuedStays(s, h, s', h', c);
      FoldStays(load, step, h[c.epoch], h'[c.epoch], c.seqNo);
    }
  }

  /* ---------- Honesty ---------- */

  lemma HonestyKept<V>(load: Bytes -> V, step: (V, Bytes) -> V, s: Store, h: History, payload: Bytes, detail: Option<Bytes>)
    requires Retains(s, h) && Honest(load, step, s, h)
    ensures Retains(ResetTaken(s, detail), h) && Honest(load, step, ResetTaken(s, detail), h)
    ensures s.snapshot.Some? ==>
      Retains(DeltaTaken(s, payload), DeltaRecorded(s, h, payload))
      && Honest(load, step, DeltaTaken(s, payload), DeltaRecorded(s, h, payload))
  {
    ResetKeeps(s, h, detail);
    if s.snapshot.Some? {
      DeltaKeeps(s, h, payload);
      FoldStays(load, step, h[s.epoch], DeltaRecorded(s, h, payload)[s.epoch], s.snapshot.value.seqNo);
    }
  }

  /** A snapshot keeps the store honest exactly when it opens an epoch or equals
      the folded state at the head. */
  lemma SnapshotHonesty<V>(load: Bytes -> V, step: (V, Bytes) -> V, s: Store, h: History, payload: Bytes)
    requires Retains(s, h)
    ensures Retains(SnapshotTaken(s, payload), SnapshotRecorded(s, h, payload))
    ensures Honest(load, step, SnapshotTaken(s, payload), SnapshotRecorded(s, h, payload)) <==>
      s.snapshot.None? || load(payload) == Fold(load, step, h[s.epoch], Head(s))
  {
    SnapshotKeeps(s, h, payload);
  }

  /** Honesty is needed: after a mid-epoch snapshot a caught-up reader is not
      sent it, and holds what a newcomer is given exactly when it was honest. */
  lemma DishonestSnapshotSplitsReaders<V(!new)>(load: Bytes -> V, step: (V, Bytes) -> V, s: Store, h: History, payload: Bytes,
                                                settled: Reader<V>, q: Request, newcomer: Request)
    requires Retains(s, h) && s.snapshot.Some? && Faithful(load, step, h, settled) && settled.cursor == CurrentCursor(s)
    requires q.cursor == settled.cursor && newcomer.cursor == None
    ensures var t := SnapshotTaken(s, payload);
      && Resolve(t, "", newcomer).Some?
      && (Resolve(t, "", q).Some? ==> Follow(load, step, settled, Resolve(t, "", q).value) == settled)
      && (Follow(load, step, Reader(None, None), Resolve(t, "", newcomer).value).value == settled.value
          <==> load(payload) == Fold(load, step, h[s.epoch], Head(s)))
  {
  }

  /* ---------- Honest runs ---------- */

  ghost predicate HonestAt<V>(load: Bytes -> V, step: (V, Bytes) -> V, b: Box) {
    Retains(b.store, b.history) && Honest(load, step, b.store, b.history)
  }

  /** The writer's part: a snapshot that is accepted in an open epoch equals the
      state folded up to the head. */
  ghost predicate HonestInput<V>(load: Bytes -> V, step: (V, Bytes) -> V, c: Config, b: Box, input: Input) {
    input.SnapshotPush? && Refused(c, b, input).None? && b.store.snapshot.Some? ==>
      Retains(b.store, b.history) && load(input.payload) == Fold(load, step, b.history[b.store.epoch], Head(b.store))
  }

  lemma NewBoxHonest<V>(load: Bytes -> V, step: (V, Bytes) -> V)
    ensures HonestAt(load, step, NewBox())
  {
  }

  /** A step from an honest store keeps it honest exactly when its input is. */
  lemma StepHonesty<V>(load: Bytes -> V, step: (V, Bytes) -> V, c: Config, b: Box, input: Input, t: Box, out: seq<Sent>)
    requires HonestAt(load, step, b) && Steps(c, b, input, t, out)
    ensures HonestAt(load, step, t) <==> HonestInput(load, step, c, b, input)
  {
    StepKeeps(c, b, input, t, out);
    hide Fold, Answers, Released, Replier, Listed, Resolve;
    match input
    case SnapshotPush(_, payload) => SnapshotHonesty(load, step, b.store, b.history, payload);
    case DeltaPush(_, payload) => HonestyKept(load, step, b.store, b.history, payload, None);
    case ProducerReset(_, detail) => HonestyKept(load, step, b.store, b.history, [], detail);
    case TimerExpired(token) =>
      if id :| Holds(b.streams, id, token) { }
    case _ =>
  }

  ghost predicate HonestWriter<V>(load: Bytes -> V, step: (V, Bytes) -> V, c: Config, run: Run)
    requires |run.inputs| < |run.boxes|
  {
    forall i | 0 <= i < |run.inputs| :: HonestInput(load, step, c, run.boxes[i], run.inputs[i])
  }

  lemma {:induction false} HonestRun<V>(load: Bytes -> V, step: (V, Bytes) -> V, c: Config, run: Run, j: nat)
    requires IsRun(c, run) && HonestWriter(load, step, c, run) && j < |run.boxes|
    ensures HonestAt(load, step, run.boxes[j])
  {
    hide Steps, HonestAt, HonestInput;
    if j == 0 {
      NewBoxHonest(load, step);
    } else {
      HonestRun(load, step, c, run, j - 1);
      assert Steps(c, run.boxes[j - 1], run.inputs[j - 1], run.boxes[j], run.outs[j - 1]);
      StepHonesty(load, step, c, run.boxes[j - 1], run.inputs[j - 1], run.boxes[j], run.outs[j - 1]);
    }
  }

  /** Every state of a run is honest exactly when the writer was. */
  lemma HonestExactly<V>(load: Bytes -> V, step: (V, Bytes) -> V, c: Config, run: Run)
    requires IsRun(c, run)
    ensures HonestWriter(load, step, c, run) <==> forall j | 0 <= j < |run.boxes| :: HonestAt(load, step, run.boxes[j])
  {
    hide Steps, HonestAt, HonestInput;
    if HonestWriter(load, step, c, run) {
      forall j | 0 <= j < |run.boxes| ensures HonestAt(load, step, run.boxes[j]) { HonestRun(load, step, c, run, j); }
    }
    if forall j | 0 <= j < |run.boxes| :: HonestAt(load, step, run.boxes[j]) {
      forall i | 0 <= i < |run.inputs| ensures HonestInput(load, step, c, run.boxes[i], run.inputs[i]) {
        assert Steps(c, run.boxes[i], run.inputs[i], run.boxes[i + 1], run.outs[i]);
        StepHonesty(load, step, c, run.boxes[i], run.inputs[i], run.boxes[i + 1], run.outs[i]);
      }
    }
  }

  /* ---------- A reader in a run ---------- */

  /** A response sent at a step of the run. */
  datatype Got = Got(at: nat, response: Response)

  /** What one reader got, in order: each response was sent by the run, to a
      read from the cursor of the one before. */
  ghost predicate Followed(run: Run, got: seq<Got>)
    requires |run.boxes| == |run.inputs| + 1 == |run.outs| + 1
  {
    && (forall k | 0 <= k < |got| :: got[k].at < |run.outs| && ReadResponse(got[k].response) in run.outs[got[k].at])
    && (forall k | 0 < k < |got| :: got[k - 1].at <= got[k].at)
    && forall k | 0 <= k < |got| ::
         AskedCursor(run.boxes[got[k].at], run.inputs[got[k].at], got[k].response.streamId)
         == if k == 0 then None else got[k - 1].response.nextCursor
  }

  /** The reader after the first `n` responses. */
  ghost function ReaderAfter<V>(load: Bytes -> V, step: (V, Bytes) -> V, got: seq<Got>, n: nat): Reader<V>
    requires n <= |got|
  {
    if n == 0 then Reader(None, None) else Follow(load, step, ReaderAfter(load, step, got, n - 1), got[n - 1].response)
  }

  /** One response of a run keeps a faithful reader faithful. */
  lemma ResponseKeepsFaithful<V(!new)>(load: Bytes -> V, step: (V, Bytes) -> V, c: Config, run: Run, i: nat, r: Response, reader: Reader<V>)
    requires IsRun(c, run) && i < |run.outs| && ReadResponse(r) in run.outs[i] && HonestAt(load, step, run.boxes[i + 1])
    requires Faithful(load, step, run.boxes[i + 1].history, reader)
    requires AskedCursor(run.boxes[i], run.inputs[i], r.streamId) == reader.cursor
    ensures Faithful(load, step, run.boxes[i + 1].history, Follow(load, step, reader, r))
    ensures r.resetReason != Some(InvalidResumeSeq)
  {
    hide Steps, Reply, Fold, Follow;
    var b, t := run.boxes[i], run.boxes[i + 1];
    assert Steps(c, b, run.inputs[i], t, run.outs[i]);
    ResponseAnswers(c, b, run.inputs[i], t, run.outs[i], r);
    var q :| Asked(b, run.inputs[i], r.streamId, q) && Reply(t.store, run.inputs[i].ProducerReset?, r.streamId, q) == Some(r);
    AskedHasCursor(b, run.inputs[i], r.streamId, q);
    AnswerKeepsFaithful(load, step, t.store, t.history, run.inputs[i].ProducerReset?, r.streamId, q, reader);
    AnswerToIssued(t.store, t.history, run.inputs[i].ProducerReset?, r.streamId, q);
  }

  /** For any fold, in every run of an honest writer: a reader that asks from the
      cursor of its last answer holds, at every later moment too, the folded
      state of the writer's full history at that cursor, through compactions,
      repairs and producer resets; and no answer it gets calls its cursor
      invalid. */
  lemma {:induction false} ReaderRefinesReplay<V(!new)>(load: Bytes -> V, step: (V, Bytes) -> V, c: Config, run: Run,
                                                        got: seq<Got>, n: nat, j: nat)
    requires IsRun(c, run) && HonestWriter(load, step, c, run) && Followed(run, got)
    requires 0 < n <= |got| && got[n - 1].at < j < |run.boxes|
    ensures Faithful(load, step, run.boxes[j].history, ReaderAfter(load, step, got, n))
    ensures got[n - 1].response.resetReason != Some(InvalidResumeSeq)
    decreases n
  {
    hide Steps, HonestInput, HonestAt, HonestWriter, Follow, Fold, AskedCursor;
    var i, before := got[n - 1].at, ReaderAfter(load, step, got, n - 1);
    if n > 1 { ReaderRefinesReplay(load, step, c, run, got, n - 1, i + 1); }
    FollowCursor(load, step, got, n - 1);
    HonestRun(load, step, c, run, i + 1);
    ResponseKeepsFaithful(load, step, c, run, i, got[n - 1].response, before);
    RunProgress(c, run, i + 1, j);
    FaithfulStays(load, step, run.boxes[i + 1].store, run.boxes[i + 1].history, run.boxes[j].store, run.boxes[j].history,
                  ReaderAfter(load, step, got, n));
  }

  lemma FollowCursor<V>(load: Bytes -> V, step: (V, Bytes) -> V, got: seq<Got>, n: nat)
    requires n <= |got|
    ensures ReaderAfter(load, step, got, n).cursor == if n == 0 then None else got[n - 1].response.nextCursor
  {
  }
}
