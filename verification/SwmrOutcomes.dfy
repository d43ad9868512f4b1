/** What each input of the single-writer mailbox does and sends, in terms of the
    fields alone, and the single-writer rule over runs. */
module SwmrOutcomes {
  import opened Wrappers
  import opened Sequences
  import opened Timers
  import opened Mailbox
  import opened SwmrSpec
  import opened SwmrRuns

  /* ---------- Producer inputs ---------- */

  /** The writer a push or a reset names. */
  function Names(input: Input): Option<string> {
    match input
    case SnapshotPush(writer, _) => Some(writer)
    case DeltaPush(writer, _) => Some(writer)
    case ProducerReset(writer, _) => Some(writer)
    case _ => None
  }

  /** After a seal or close every push and reset changes nothing, not even the
      writer bound, and is warned of. */
  lemma AfterTheEnd(c: Config, b: Box, input: Input, t: Box, out: seq<Sent>)
    requires Steps(c, b, input, t, out) && Names(input).Some? && (b.store.sealed || b.store.closed)
    ensures t == b && out == [Diagnostic(Diag(Warn, PushAfterTerminal))]
  {
  }

  /** Before that, one that names another writer than the bound one changes
      nothing and is a fault. */
  lemma AnotherWriter(c: Config, b: Box, input: Input, t: Box, out: seq<Sent>)
    requires Steps(c, b, input, t, out) && Names(input).Some? && !b.store.sealed && !b.store.closed
    requires b.writer.Some? && b.writer != Names(input)
    ensures t == b && out == [Diagnostic(Diag(Fault, WriterConflict))]
  {
  }

  /** A delta needs a snapshot and room; otherwise it only binds its writer. */
  lemma DeltaNeedsSnapshot(c: Config, b: Box, input: Input, t: Box, out: seq<Sent>)
    requires Steps(c, b, input, t, out) && input.DeltaPush? && !b.store.sealed && !b.store.closed
    requires b.writer.None? || b.writer == Some(input.writer)
    ensures b.store.snapshot.None? ==>
      t == b.(writer := Some(input.writer)) && out == [Diagnostic(Diag(Fault, DeltaBeforeSnapshot))]
    ensures b.store.snapshot.Some? && c.maxDeltas.Some? && |b.store.deltas| >= c.maxDeltas.value ==>
      t == b.(writer := Some(input.writer)) && out == [Diagnostic(Diag(Fault, RetentionBoundExceeded))]
  {
  }

  /** Nothing else is refused. */
  ghost predicate Accepts(c: Config, b: Box, input: Input) {
    && Names(input).Some? && !b.store.sealed && !b.store.closed && (b.writer.None? || b.writer == Names(input))
    && (input.DeltaPush? ==>
          b.store.snapshot.Some? && (c.maxDeltas.Some? ==> |b.store.deltas| < c.maxDeltas.value))
  }

  /** An accepted input binds its writer; a snapshot stands at the head and
      drops the deltas, a delta goes from the head to the next number, a reset
      opens the next epoch empty. */
  lemma AcceptedTakes(c: Config, b: Box, input: Input, t: Box, out: seq<Sent>)
    requires Steps(c, b, input, t, out) && Accepts(c, b, input)
    ensures t.writer == Names(input) && t.order == b.order && t.nextToken == b.nextToken && t.streams.Keys == b.streams.Keys
    ensures var head := if b.store.snapshot.Some? then b.store.snapshot.value.seqNo + |b.store.deltas| else 0;
      && (input.SnapshotPush? ==> t.store == b.store.(snapshot := Some(Snapshot(head, input.payload)), deltas := []))
      && (input.DeltaPush? ==> t.store == b.store.(deltas := b.store.deltas + [Delta(head, head + 1, input.payload)]))
      && (input.ProducerReset? ==>
            t.store == b.store.(epoch := b.store.epoch + 1, snapshot := None, deltas := [],
                                resetReason := Some(ProducerRequested), resetDetail := input.detail))
    ensures forall d :: Diagnostic(d) !in out
  {
    var reply := Replier(StoreAfter(b.store, input), input.ProducerReset?);
    NoDiagnostics(reply, b.streams, b.order);
    hide Answers, Replier;
    assert out == Answers(reply, b.streams, b.order);
  }

  lemma {:induction false} NoDiagnostics(reply: (string, Request) -> Option<Response>, streams: Table<Request>, order: seq<string>)
    ensures forall d :: Diagnostic(d) !in Answers<Request, Response, Diag>(reply, streams, order)
    decreases |order|
  {
    if order != [] { NoDiagnostics(reply, streams, order[..|order| - 1]); }
  }

  /** The history records exactly what was accepted: a first snapshot opens the
      log of its epoch, every delta is appended to it, nothing else changes it. */
  lemma AcceptedRecords(c: Config, b: Box, input: Input, t: Box, out: seq<Sent>)
    requires Steps(c, b, input, t, out) && Retains(b.store, b.history)
    ensures !Accepts(c, b, input) || input.ProducerReset? ==> t.history == b.history
    ensures Accepts(c, b, input) && input.SnapshotPush? ==>
      t.history == if b.store.snapshot.None? then b.history[b.store.epoch := EpochLog(input.payload, [])] else b.history
    ensures Accepts(c, b, input) && input.DeltaPush? ==>
      b.store.epoch in b.history
      && t.history == b.history[b.store.epoch := EpochLog(b.history[b.store.epoch].first, b.history[b.store.epoch].deltas + [input.payload])]
  {
    hide Answers, Released, Replier, Resolve, Listed;
    if input.TimerExpired? {
      if id :| Holds(b.streams, id, input.token) { }
    }
  }

  /** Sealing and closing set their flags once, and change nothing else of the
      store. */
  lemma EndsOnce(c: Config, b: Box, input: Input, t: Box, out: seq<Sent>)
    requires Steps(c, b, input, t, out)
    ensures input.Seal? ==> t.store == b.store.(sealed := true) && (b.store.sealed ==> t == b && out == [])
    ensures input.Close? && b.store.closed ==> t == b && out == []
    ensures input.Close? && !b.store.closed ==>
      t.store == b.store.(closed := true, closeError := input.error)
      && out != [] && out[|out| - 1] == ProducerStop(if input.error.Some? then StopFailed else StopClosed)
  {
    hide Answers, Released, Replier;
  }

  /** No other input touches the store or the writer. */
  lemma OthersKeep(c: Config, b: Box, input: Input, t: Box, out: seq<Sent>)
    requires Steps(c, b, input, t, out) && (input.Read? || input.EndStream? || input.TimerExpired?)
    ensures t.store == b.store && t.writer == b.writer
  {
    hide Resolve, Listed;
    if input.TimerExpired? {
      if id :| Holds(b.streams, id, input.token) { }
    }
  }

  /** The order of the streams is that of their first reads: a new one comes
      last, one that ends closes its gap, nothing else moves any. */
  lemma OrderOfCreation(c: Config, b: Box, input: Input, t: Box, out: seq<Sent>)
    requires Steps(c, b, input, t, out) && Lists(b.order, b.streams)
    ensures input.Read? && input.streamId !in b.streams ==> t.order == b.order + [input.streamId]
    ensures input.EndStream? && input.streamId in b.streams ==>
      exists i :: 0 <= i < |b.order| && b.order[i] == input.streamId && t.order == b.order[..i] + b.order[i + 1..]
    ensures (input.Read? ==> input.streamId in b.streams) && (input.EndStream? ==> input.streamId !in b.streams) ==> t.order == b.order
    ensures Lists(t.order, t.streams)
  {
    hide Resolve, Answers, Replier;
    match input
    case EndStream(id) =>
      ListsMore(b.order, b.streams, t.streams, id);
      assert t.streams.Keys == b.streams.Keys - {id};
      if id in b.streams {
        assert id in b.order;
        var i :| 0 <= i < |b.order| && b.order[i] == id;
        WithoutCloses(b.order, id, i);
      } else {
        NotListed(b.order, b.streams, id);
      }
    case Read(id, _) => StillListed(b.order, b.streams, t.streams, id);
    case TimerExpired(token) => if id :| Holds(b.streams, id, token) { }
    case _ =>
  }

  /* ---------- The single-writer rule ---------- */

  lemma {:induction false} WriterStays(c: Config, run: Run, i: nat, j: nat)
    requires IsRun(c, run) && i <= j < |run.boxes| && run.boxes[i].writer.Some?
    ensures run.boxes[j].writer == run.boxes[i].writer
    decreases j
  {
    hide Steps;
    if i < j {
      WriterStays(c, run, i, j - 1);
      var b, input, t, out := run.boxes[j - 1], run.inputs[j - 1], run.boxes[j], run.outs[j - 1];
      assert Steps(c, b, input, t, out);
      WriterKept(c, b, input, t, out);
    }
  }

  lemma WriterKept(c: Config, b: Box, input: Input, t: Box, out: seq<Sent>)
    requires Steps(c, b, input, t, out) && b.writer.Some?
    ensures t.writer == b.writer
  {
    if input.Read? || input.EndStream? || input.TimerExpired? { OthersKeep(c, b, input, t, out); }
    hide Resolve, Answers, Released, Replier;
  }

  lemma UnacceptedReported(c: Config, b: Box, input: Input, t: Box, out: seq<Sent>)
    requires Steps(c, b, input, t, out) && Names(input).Some? && !Accepts(c, b, input)
    ensures exists d :: Diagnostic(d) in out
  {
    if b.store.sealed || b.store.closed {
      AfterTheEnd(c, b, input, t, out);
    } else if b.writer.Some? && b.writer != Names(input) {
      AnotherWriter(c, b, input, t, out);
    } else {
      DeltaNeedsSnapshot(c, b, input, t, out);
    }
    assert out[0] == Diagnostic(out[0].diagnostic);
  }

  /** What draws no diagnostic was accepted, and its writer is bound. */
  lemma UnreportedAccepted(c: Config, b: Box, input: Input, t: Box, out: seq<Sent>)
    requires Steps(c, b, input, t, out) && Names(input).Some? && forall d :: Diagnostic(d) !in out
    ensures Accepts(c, b, input) && t.writer == Names(input)
  {
    hide Steps;
    if !Accepts(c, b, input) { UnacceptedReported(c, b, input, t, out); }
    AcceptedTakes(c, b, input, t, out);
  }

  /** All pushes and resets that a run accepts, that is without a diagnostic,
      name one writer. */
  lemma OneWriter(c: Config, run: Run, i: nat, j: nat)
    requires IsRun(c, run) && i < |run.inputs| && j < |run.inputs|
    requires Names(run.inputs[i]).Some? && Names(run.inputs[j]).Some?
    requires (forall d :: Diagnostic(d) !in run.outs[i]) && forall d :: Diagnostic(d) !in run.outs[j]
    ensures Names(run.inputs[i]) == Names(run.inputs[j])
  {
    hide Steps, Accepts, Names;
    assert Steps(c, run.boxes[i], run.inputs[i], run.boxes[i + 1], run.outs[i]);
    assert Steps(c, run.boxes[j], run.inputs[j], run.boxes[j + 1], run.outs[j]);
    UnreportedAccepted(c, run.boxes[i], run.inputs[i], run.boxes[i + 1], run.outs[i]);
    UnreportedAccepted(c, run.boxes[j], run.inputs[j], run.boxes[j + 1], run.outs[j]);
    if i < j { WriterStays(c, run, i + 1, j + 1); } else { WriterStays(c, run, j + 1, i + 1); }
  }

  /** Once a run has bound a writer, whatever another one sends changes nothing
      and is answered with a diagnostic alone. */
  lemma OthersChangeNothing(c: Config, run: Run, i: nat, j: nat)
    requires IsRun(c, run) && i <= j < |run.inputs| && run.boxes[i].writer.Some?
    requires Names(run.inputs[j]).Some? && Names(run.inputs[j]) != run.boxes[i].writer
    ensures run.boxes[j + 1] == run.boxes[j]
    ensures var ended := run.boxes[j].store.sealed || run.boxes[j].store.closed;
      run.outs[j] == [Diagnostic(if ended then Diag(Warn, PushAfterTerminal) else Diag(Fault, WriterConflict))]
  {
    hide Steps, Names;
    WriterStays(c, run, i, j);
    assert Steps(c, run.boxes[j], run.inputs[j], run.boxes[j + 1], run.outs[j]);
    if run.boxes[j].store.sealed || run.boxes[j].store.closed {
      AfterTheEnd(c, run.boxes[j], run.inputs[j], run.boxes[j + 1], run.outs[j]);
    } else {
      AnotherWriter(c, run.boxes[j], run.inputs[j], run.boxes[j + 1], run.outs[j]);
    }
  }

  /* ---------- Answers ---------- */

  /** Data is sent exactly to a newcomer or a reader within the retained deltas
      of the open epoch; a repair exactly to another epoch or outside of them;
      every other read is caught up, and gets how the mailbox ended, a probe's
      empty answer, or waits. */
  lemma ResolveKinds(s: Store, id: string, q: Request)
    ensures var a := Resolve(s, id, q);
      var head := if s.snapshot.Some? then s.snapshot.value.seqNo + |s.deltas| else 0;
      var newcomer := q.cursor.None? && s.snapshot.Some?;
      var within := q.cursor.Some? && s.snapshot.Some? && q.cursor.value.epoch == s.epoch
                    && s.snapshot.value.seqNo <= q.cursor.value.seqNo < head;
      var astray := q.cursor.Some? && (q.cursor.value.epoch != s.epoch
                    || (s.snapshot.Some? && !(s.snapshot.value.seqNo <= q.cursor.value.seqNo <= head)));
      && (a.Some? && a.value.state == Data <==> newcomer || within)
      && (a.Some? && a.value.state == Reset <==> astray)
      && (!newcomer && !within && !astray ==>
            if s.closed then a.Some? && a.value.state == if s.closeError.Some? then Failed else Closed
            else if s.sealed then a.Some? && a.value.state == Eof
            else if q.timeoutMs == Some(0) then a.Some? && a.value.state == WouldBlock
            else a.None?)
  {
  }

  /** What an answer carries: the snapshot and all deltas, or only the deltas
      after the position of a reader that had one. */
  lemma ResolveCarries(s: Store, id: string, q: Request)
    requires Resolve(s, id, q).Some? && (s.snapshot.None? ==> s.deltas == [])
    ensures var r := Resolve(s, id, q).value;
      && (r.state == Reset || (r.state == Data && q.cursor.None?) ==> r.snapshot == s.snapshot && r.deltas == s.deltas)
      && (r.state == Data && q.cursor.Some? ==> r.snapshot.None? && DeltasFrom(s, q.cursor.value.seqNo, r.deltas))
      && (r.state !in {Data, Reset} ==> r.snapshot.None? && r.deltas == [])
  {
    hide CaughtUp;
    if q.cursor.Some? && s.snapshot.Some? {
      hide Resolve;
      if Resolve(s, id, q).value.state == Data { IncrementIs(s, id, q); }
      RestIs(s, id, q);
    }
    CaughtUpEmpty(s, id, q, None);
  }

  ghost predicate DeltasFrom(s: Store, seqNo: int, deltas: seq<Delta>) {
    s.snapshot.Some? && 0 <= seqNo - s.snapshot.value.seqNo <= |s.deltas| && deltas == s.deltas[seqNo - s.snapshot.value.seqNo..]
  }

  lemma IncrementIs(s: Store, id: string, q: Request)
    requires q.cursor.Some? && s.snapshot.Some? && Resolve(s, id, q).Some? && Resolve(s, id, q).value.state == Data
    ensures Resolve(s, id, q).value.snapshot.None? && DeltasFrom(s, q.cursor.value.seqNo, Resolve(s, id, q).value.deltas)
  {
  }

  lemma RestIs(s: Store, id: string, q: Request)
    requires q.cursor.Some? && s.snapshot.Some? && Resolve(s, id, q).Some?
    ensures var r := Resolve(s, id, q).value;
      && (r.state == Reset ==> r.snapshot == s.snapshot && r.deltas == s.deltas)
      && (r.state !in {Data, Reset} ==> r.snapshot.None? && r.deltas == [])
  {
  }

  lemma CaughtUpEmpty(s: Store, id: string, q: Request, next: Option<Cursor>)
    ensures CaughtUp(s, id, q, next).Some? ==>
      var r := CaughtUp(s, id, q, next).value; r.state !in {Data, Reset} && r.snapshot.None? && r.deltas == []
  {
  }

  /** Whom it names, the position it hands out, and the error of a mailbox that
      failed. */
  lemma ResolveNames(s: Store, id: string, q: Request)
    requires Resolve(s, id, q).Some?
    ensures var r := Resolve(s, id, q).value;
      && r.swmrId == q.swmrId && r.streamId == id
      && r.nextCursor == (if s.snapshot.Some? then Some(Cursor(s.snapshot.value.seqNo + |s.deltas|, s.epoch)) else None)
      && r.error == (if r.state == Failed then s.closeError else None)
  {
  }

  /** Why a repair is made: an older epoch was reset, for the reason and with the
      detail the writer gave; a position below the snapshot is no longer
      retained; any other was never handed out. */
  lemma RepairReasons(s: Store, id: string, q: Request)
    requires Resolve(s, id, q).Some?
    ensures var r := Resolve(s, id, q).value;
      && (r.state != Reset ==> r.resetReason.None? && r.resetDetail.None?)
      && (r.state == Reset && q.cursor.value.epoch < s.epoch ==>
            r.resetReason == (if s.resetReason.Some? then s.resetReason else Some(ProducerRequested)) && r.resetDetail == s.resetDetail)
      && (r.state == Reset && q.cursor.value.epoch >= s.epoch ==>
            r.resetDetail.None?
            && r.resetReason == if q.cursor.value.epoch == s.epoch && s.snapshot.Some? && q.cursor.value.seqNo < s.snapshot.value.seqNo
                                then Some(RetentionExceeded) else Some(InvalidResumeSeq))
  {
  }

  /** A producer reset answers a held read that had a position with the reset
      alone; a read without one, and every read otherwise, is resolved. */
  lemma NoticeIs(s: Store, id: string, q: Request)
    ensures Reply(s, false, id, q) == Resolve(s, id, q)
    ensures q.cursor.None? ==> Reply(s, true, id, q) == Resolve(s, id, q)
    ensures q.cursor.Some? ==>
      Reply(s, true, id, q)
      == Some(Response(q.swmrId, id, None, [], None, Reset, Some(ProducerRequested), None, s.resetDetail))
  {
  }
}
