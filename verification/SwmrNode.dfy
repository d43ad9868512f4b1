/** The single-writer mailbox object. */
module SwmrNode {
  import opened Wrappers
  import opened Timers
  import opened Mailbox
  import opened SwmrSpec
  import opened SwmrRuns

  class Node {
    const stopWhen: StopWhen
    const maxDeltas: Option<nat>
    var snapshot: Option<Snapshot>
    var deltas: seq<Delta>
    var sealed: bool
    var closed: bool
    var closeError: Option<Error>
    var writerId: Option<string>
    var epoch: int
    var resetReason: Option<ResetReason>
    var resetDetail: Option<Bytes>
    var streams: Table<Request>
    var order: seq<string>
    var nextToken: int
    /** Everything the writer was accepted to say, and all timer events. */
    ghost var history: History
    ghost var timers: seq<TimerEvent>

    function Value(): Store
      reads `snapshot, `deltas, `epoch, `sealed, `closed, `closeError, `resetReason, `resetDetail
    {
      Store(snapshot, deltas, epoch, sealed, closed, closeError, resetReason, resetDetail)
    }

    function Settings(): Config { Config(stopWhen, maxDeltas) }

    ghost function Whole(): Box
      reads this
    {
      Box(Value(), history, writerId, streams, order, nextToken)
    }

    ghost predicate Valid()
      reads this
    {
      && Retains(Value(), history)
      && Lists(order, streams)
      && Waiting(Value(), streams)
      && Accounts(timers, nextToken - 1, streams)
    }

    constructor (stopWhen: StopWhen, maxDeltas: Option<nat>)
      ensures Valid() && Whole() == NewBox() && timers == []
    {
      this.stopWhen, this.maxDeltas := stopWhen, maxDeltas;
      snapshot, deltas, sealed, closed, closeError := None, [], false, false, None;
      writerId, epoch, resetReason, resetDetail := None, 0, None, None;
      streams, order, nextToken, history, timers := map[], [], 1, map[], [];
      new;
      AccountsEmpty<Request>();
    }

    /** Answers what can be answered, in creation order, and leaves the rest. */
    method AnswerAllHeld(resetting: bool) returns (out: seq<Sent>)
      requires Lists(order, streams) && Accounts(timers, nextToken - 1, streams)
      modifies `streams, `timers
      ensures streams == Released(Replier(Value(), resetting), old(streams))
      ensures out == Answers(Replier(Value(), resetting), old(streams), order)
      ensures Lists(order, streams) && Accounts(timers, nextToken - 1, streams)
      ensures timers == old(timers) + TimerEvents(out)
    {
      hide *;
      ghost var reply, before, timers0 := Replier(Value(), resetting), streams, timers;
      out := [];
      SweptNone<Request, Response, Diag>(reply, before, order);
      Untimed<Response, Diag>(timers, ProducerStop(StopClosed));
      for i := 0 to |order|
        invariant Swept(reply, before, order, i, streams, out) && reply == Replier(Value(), resetting)
        invariant Accounts(timers, nextToken - 1, streams) && timers == timers0 + TimerEvents(out)
      {
        var id := order[i];
        SweptStep(reply, before, order, i, streams, out, timers, nextToken - 1);
        ghost var sent := Answer<Request, Response, Diag>(reply, id, streams[id]);
        timers := timers + TimerEvents(sent);
        ReplyTo(Value(), resetting, id, streams[id]);
        if streams[id].Some? {
          var held := streams[id].value;
          var response := Reply(Value(), resetting, id, held.request);
          if response.Some? {
            out := out + CancelOf(Some(held)) + [ReadResponse(response.value)];
            streams := streams[id := None];
          }
        }
      }
      SweptAll(reply, before, order, streams, out);
    }

    method CheckWriter(writer: string) returns (ok: bool)
      modifies `writerId
      ensures ok <==> old(writerId).None? || old(writerId).value == writer
      ensures writerId == if old(writerId).None? then Some(writer) else old(writerId)
    {
      if writerId.None? { writerId := Some(writer); }
      ok := writerId.value == writer;
    }

    /** The checks every push and reset begins with. */
    method Refuse(writer: string) returns (code: Option<DiagCode>)
      requires Valid()
      modifies `writerId
      ensures Valid() && Whole() == old(Whole()).(writer := Bound(old(Value()), old(writerId), writer))
      ensures code == Refusal(old(Value()), old(writerId), writer)
    {
      if sealed || closed { return Some(PushAfterTerminal); }
      var ok := CheckWriter(writer);
      code := if ok then None else Some(WriterConflict);
    }

    /** What holds between taking a producer input and its sweep. */
    ghost predicate Kept()
      reads this
    {
      Retains(Value(), history) && Lists(order, streams) && Accounts(timers, nextToken - 1, streams)
    }

    /** A producer input that was taken is completed by a sweep. */
    method Publish(resetting: bool, ghost b: Box, ghost input: Input) returns (out: seq<Sent>)
      requires Kept() && Takes(Settings(), b, input, Whole()) && resetting == input.ProducerReset?
      modifies `streams, `timers
      ensures Valid() && timers == old(timers) + TimerEvents(out)
      ensures Steps(Settings(), b, input, Whole(), out + StopOf(input)) && (!input.Close? ==> out + StopOf(input) == out)
    {
      hide Retains, Lists, Accounts, Waiting, Answers, TimerEvents, Steps, Takes, Released, Replier;
      ghost var t := Whole();
      out := AnswerAllHeld(resetting);
      ReleasedWaits(Value(), resetting, old(streams));
      TakenStep(Settings(), b, input, t, Whole(), out);
    }

    method SnapshotPush(writer: string, payload: Bytes) returns (out: seq<Sent>)
      requires Valid()
      modifies `writerId, `snapshot, `deltas, `streams, `history, `timers
      ensures Valid() && timers == old(timers) + TimerEvents(out)
      ensures Steps(Settings(), old(Whole()), Input.SnapshotPush(writer, payload), Whole(), out)
    {
      hide *;
      ghost var b, input := Whole(), Input.SnapshotPush(writer, payload);
      WholeIs();
      var refusal := Refuse(writer);
      SnapshotIs(Settings(), b, writer, payload);
      if refusal.Some? {
        RefusedStep(Settings(), b, input, refusal.value, Whole());
        Untimed<Response, Diag>(timers, Diagnose(refusal.value));
        return [Diagnose(refusal.value)];
      }
      TakeSnapshot(b, writer, payload);
      out := Publish(false, b, input);
    }

    method TakeSnapshot(ghost b: Box, ghost writer: string, payload: Bytes)
      requires Valid() && Whole() == b.(writer := Bound(b.store, b.writer, writer)) && Refusal(b.store, b.writer, writer).None?
      modifies `snapshot, `deltas, `history
      ensures Kept() && Takes(Settings(), b, Input.SnapshotPush(writer, payload), Whole())
    {
      hide Retains, Lists, Accounts, Waiting;
      SnapshotKeeps(b.store, history, payload);
      history := SnapshotRecorded(b.store, history, payload);
      snapshot := Some(Snapshot(Head(Value()), payload));
      deltas := [];
    }

    method DeltaPush(writer: string, payload: Bytes) returns (out: seq<Sent>)
      requires Valid()
      modifies `writerId, `deltas, `streams, `history, `timers
      ensures Valid() && timers == old(timers) + TimerEvents(out)
      ensures Steps(Settings(), old(Whole()), Input.DeltaPush(writer, payload), Whole(), out)
    {
      hide *;
      ghost var b, input := Whole(), Input.DeltaPush(writer, payload);
      WholeIs();
      var refusal := Refuse(writer);
      DeltaIs(Settings(), b, writer, payload);
      WholeIs();
      if refusal.None? {
        if snapshot.None? {
          refusal := Some(DeltaBeforeSnapshot);
        } else if maxDeltas.Some? && |deltas| >= maxDeltas.value {
          refusal := Some(RetentionBoundExceeded);
        }
      }
      if refusal.Some? {
        RefusedStep(Settings(), b, input, refusal.value, Whole());
        Untimed<Response, Diag>(timers, Diagnose(refusal.value));
        return [Diagnose(refusal.value)];
      }
      TakeDelta(b, writer, payload);
      out := Publish(false, b, input);
    }

    method TakeDelta(ghost b: Box, ghost writer: string, payload: Bytes)
      requires Valid() && Whole() == b.(writer := Bound(b.store, b.writer, writer))
      requires DeltaRefusal(b.store, b.writer, writer, maxDeltas).None?
      modifies `deltas, `history
      ensures Kept() && Takes(Settings(), b, Input.DeltaPush(writer, payload), Whole())
    {
      hide Retains, Lists, Accounts, Waiting;
      DeltaKeeps(b.store, history, payload);
      history := DeltaRecorded(b.store, history, payload);
      var next := Head(Value()) + 1;
      deltas := deltas + [Delta(next - 1, next, payload)];
    }

    method ProducerReset(writer: string, detail: Option<Bytes>) returns (out: seq<Sent>)
      requires Valid()
      modifies `writerId, `epoch, `snapshot, `deltas, `resetReason, `resetDetail, `streams, `timers
      ensures Valid() && timers == old(timers) + TimerEvents(out)
      ensures Steps(Settings(), old(Whole()), Input.ProducerReset(writer, detail), Whole(), out)
    {
      hide *;
      ghost var b, input := Whole(), Input.ProducerReset(writer, detail);
      WholeIs();
      var refusal := Refuse(writer);
      ResetIs(Settings(), b, writer, detail);
      if refusal.Some? {
        RefusedStep(Settings(), b, input, refusal.value, Whole());
        Untimed<Response, Diag>(timers, Diagnose(refusal.value));
        return [Diagnose(refusal.value)];
      }
      TakeReset(b, writer, detail);
      out := Publish(true, b, input);
    }

    method TakeReset(ghost b: Box, ghost writer: string, detail: Option<Bytes>)
      requires Valid() && Whole() == b.(writer := Bound(b.store, b.writer, writer)) && Refusal(b.store, b.writer, writer).None?
      modifies `epoch, `snapshot, `deltas, `resetReason, `resetDetail
      ensures Kept() && Takes(Settings(), b, Input.ProducerReset(writer, detail), Whole())
    {
      hide Retains, Lists, Accounts, Waiting;
      ResetKeeps(b.store, history, detail);
      epoch := epoch + 1;
      snapshot := None;
      deltas := [];
      resetReason := Some(ProducerRequested);
      resetDetail := detail;
    }

    method Seal() returns (out: seq<Sent>)
      requires Valid()
      modifies `sealed, `streams, `timers
      ensures Valid() && timers == old(timers) + TimerEvents(out)
      ensures Steps(Settings(), old(Whole()), Input.Seal, Whole(), out)
    {
      hide Retains, Lists, Accounts, TimerEvents, Resolve, Waiting, Steps;
      ghost var b, input := Whole(), Input.Seal;
      Untimed<Response, Diag>(timers, ProducerStop(StopClosed));
      if sealed {
        RepeatedStep(Settings(), b, input);
        return [];
      }
      sealed := true;
      EndKeeps(b.store, Value(), history);
      out := Publish(false, b, input);
    }

    method Close(error: Option<Error>) returns (out: seq<Sent>)
      requires Valid()
      modifies `closed, `closeError, `streams, `timers
      ensures Valid() && timers == old(timers) + TimerEvents(out)
      ensures Steps(Settings(), old(Whole()), Input.Close(error), Whole(), out)
    {
      hide Retains, Lists, Accounts, TimerEvents, Resolve, Waiting, Steps;
      ghost var b, input := Whole(), Input.Close(error);
      var stop: Sent := ProducerStop(if error.Some? then StopFailed else StopClosed);
      Untimed(timers, stop);
      if closed {
        RepeatedStep(Settings(), b, input);
        return [];
      }
      closed := true;
      closeError := error;
      EndKeeps(b.store, Value(), history);
      out := Publish(false, b, input);
      UntimedAfter(out, stop);
      out := out + [stop];
    }

    lemma WholeIs()
      ensures Whole() == Box(Value(), history, writerId, streams, order, nextToken)
      ensures Value() == Store(snapshot, deltas, epoch, sealed, closed, closeError, resetReason, resetDetail)
      ensures Settings() == Config(stopWhen, maxDeltas)
    {
    }

    /** Drops the stream's held read, then answers, probes or parks the new one. */
    method Read(streamId: string, q: Request) returns (out: seq<Sent>)
      requires Valid()
      modifies `streams, `order, `nextToken, `timers
      ensures Valid() && timers == old(timers) + TimerEvents(out)
      ensures Steps(Settings(), old(Whole()), Input.Read(streamId, q), Whole(), out)
    {
      hide Retains, Accounts, Lists, TimerEvents, Resolve, CancelOf, Replied, NextToken, Listed, HeldOf, Parked, Waiting, Steps;
      ghost var b := Whole();
      var r := Resolve(Value(), streamId, q);
      ReadBooks<Request, Response, Diag>(streams, order, streamId, r, q, q.timeoutMs, nextToken, timers);
      ReadWaits(Value(), streams, streamId, q, nextToken);
      streams, order, out := OpenIdle(streams, order, streamId);
      var answer;
      streams, nextToken, answer := AnswerOrPark(streams, streamId, r, q, q.timeoutMs, nextToken);
      out := out + answer;
      timers := timers + TimerEvents(out);
      ReadStep(Settings(), b, streamId, q, Whole(), out);
    }

    method EndStream(streamId: string) returns (out: seq<Sent>)
      requires Valid()
      modifies `streams, `order, `timers
      ensures Valid() && timers == old(timers) + TimerEvents(out)
      ensures Steps(Settings(), old(Whole()), Input.EndStream(streamId), Whole(), out)
    {
      hide Retains, Accounts, Lists, TimerEvents, Resolve, CancelOf, EndOutputs, Without, Released, Answers;
      EndAccounts<Request, Response, Diag>(streams, streamId, stopWhen, timers, nextToken - 1);
      ListsMore(order, streams, streams - {streamId}, streamId);
      streams, order, out := RemoveStream(streams, order, streamId, stopWhen);
      timers := timers + TimerEvents(out);
    }

    /** A timer fires at most once, for the read it was set for, which is then
        answered; any other token is ignored. */
    method TimerExpired(token: int) returns (out: seq<Sent>)
      requires Valid()
      modifies `streams, `timers
      ensures Valid() && Steps(Settings(), old(Whole()), Input.TimerExpired(token), Whole(), out)
      ensures timers == old(timers) + if exists id :: Holds(old(streams), id, token) then [TimerFired(token)] else []
    {
      hide Retains, Lists, Accounts, Resolve;
      out := [];
      var found := FindByToken(streams, token);
      if found.None? { return; }
      var id := found.value;
      FireBooks(streams, order, id, token, timers, nextToken - 1);
      var held := streams[id].value;
      ProbeAnswers(Value(), id, held.request);
      assert Holds(streams, id, token);
      streams := streams[id := None];
      timers := timers + [TimerFired(token)];
      out := [ReadResponse(Resolve(Value(), id, held.request.(timeoutMs := Some(0))).value)];
    }

    /** The whole interface: any input is one step, keeps the books, and answers
        only reads just made or held. */
    method Handle(input: Input) returns (out: seq<Sent>)
      requires Valid()
      modifies this
      ensures Valid() && Steps(Settings(), old(Whole()), input, Whole(), out)
      ensures Progress(old(Value()), old(history), Value(), history)
      ensures forall r | ReadResponse(r) in out :: Answered(old(Whole()), input, Whole(), r)
      ensures timers == old(timers) + TimerEvents(out)
           || (input.TimerExpired? && timers == old(timers) + [TimerFired(input.token)])
    {
      hide Retains, Accounts, Waiting, Lists, TimerEvents, Progress, Steps, Answered;
      ghost var b := Whole();
      match input {
        case SnapshotPush(writer, payload) => out := SnapshotPush(writer, payload);
        case DeltaPush(writer, payload) => out := DeltaPush(writer, payload);
        case ProducerReset(writer, detail) => out := ProducerReset(writer, detail);
        case Seal => out := Seal();
        case Close(error) => out := Close(error);
        case Read(id, q) => out := Read(id, q);
        case EndStream(id) => out := EndStream(id);
        case TimerExpired(token) =>
          out := TimerExpired(token);
          NothingFired(Settings(), b, token, Whole(), out);
          Untimed<Response, Diag>(timers, ProducerStop(StopClosed));
      }
      StepKeeps(Settings(), b, input, Whole(), out);
      forall r | ReadResponse(r) in out ensures Answered(b, input, Whole(), r) {
        ResponseAnswers(Settings(), b, input, Whole(), out, r);
      }
    }
  }

  lemma SnapshotIs(c: Config, b: Box, writer: string, payload: Bytes)
    ensures var input := Input.SnapshotPush(writer, payload);
      && FromProducer(input) && Refused(c, b, input) == Refusal(b.store, b.writer, writer)
      && WriterAfter(b, input) == Bound(b.store, b.writer, writer) && StopOf(input) == []
  {
  }

  lemma DeltaIs(c: Config, b: Box, writer: string, payload: Bytes)
    ensures var input := Input.DeltaPush(writer, payload);
      && FromProducer(input) && Refused(c, b, input) == DeltaRefusal(b.store, b.writer, writer, c.maxDeltas)
      && WriterAfter(b, input) == Bound(b.store, b.writer, writer) && StopOf(input) == []
    ensures DeltaRefusal(b.store, b.writer, writer, c.maxDeltas) ==
      if Refusal(b.store, b.writer, writer).Some? then Refusal(b.store, b.writer, writer)
      else if b.store.snapshot.None? then Some(DeltaBeforeSnapshot)
      else if c.maxDeltas.Some? && |b.store.deltas| >= c.maxDeltas.value then Some(RetentionBoundExceeded)
      else None
  {
  }

  lemma ResetIs(c: Config, b: Box, writer: string, detail: Option<Bytes>)
    ensures var input := Input.ProducerReset(writer, detail);
      && FromProducer(input) && Refused(c, b, input) == Refusal(b.store, b.writer, writer)
      && WriterAfter(b, input) == Bound(b.store, b.writer, writer) && StopOf(input) == []
  {
  }

  lemma NothingFired(c: Config, b: Box, token: int, t: Box, out: seq<Sent>)
    requires Steps(c, b, Input.TimerExpired(token), t, out)
    ensures (exists id :: Holds(b.streams, id, token)) || out == []
  {
  }

  lemma ReplyTo(s: Store, resetting: bool, id: string, entry: Option<Held<Request>>)
    ensures AnswerTo(Replier(s, resetting), id, entry)
      == if entry.Some? then Reply(s, resetting, id, entry.value.request) else None
  {
  }
}
