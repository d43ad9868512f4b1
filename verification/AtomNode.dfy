/** The latest-value mailbox object. */
module AtomNode {
  import opened Wrappers
  import opened Timers
  import opened Mailbox
  import opened AtomSpec

  class Node {
    const stopWhen: StopWhen
    var version: int
    var payload: Option<Bytes>
    var sealed: bool
    var closed: bool
    var closeError: Option<Error>
    var streams: Table<Request>
    var order: seq<string>
    var nextToken: int
    /** Every accepted replacement, and all timer events. */
    ghost var history: seq<Bytes>
    ghost var timers: seq<TimerEvent>

    function Value(): Store
      reads `version, `payload, `sealed, `closed, `closeError
    {
      Store(version, payload, sealed, closed, closeError)
    }

    ghost predicate Valid()
      reads this
    {
      && Latest(Value(), history) && Lists(order, streams)
      && Waiting(Value(), streams) && Accounts(timers, nextToken - 1, streams)
    }

    constructor (stopWhen: StopWhen)
      ensures Valid() && Value() == Store(0, None, false, false, None)
      ensures streams == map[] && history == [] && timers == []
    {
      this.stopWhen := stopWhen;
      version, payload, sealed, closed, closeError := 0, None, false, false, None;
      streams, order, nextToken, history, timers := map[], [], 1, [], [];
      new;
      AccountsEmpty<Request>();
    }

    /** Answers what can be answered, in creation order, and leaves the rest. */
    method AnswerAllHeld() returns (out: seq<Sent>)
      requires Latest(Value(), history) && Lists(order, streams) && Accounts(timers, nextToken - 1, streams)
      requires NeverPanics(Value(), streams)
      modifies `streams, `timers
      ensures Valid() && timers == old(timers) + TimerEvents(out)
      ensures streams == Released(Replier(Value()), old(streams))
      ensures out == Answers(Replier(Value()), old(streams), order)
    {
      hide Latest, Lists, Accounts, Waiting, TimerEvents, Resolve, Replier, Released, Answers, Answer, Swept, CancelOf, AnswerTo,
        NeverPanics, Rest, Panics;
      ghost var s, before, timers0 := Value(), streams, timers;
      out := [];
      SweptNone<Request, Response, Diag>(Replier(s), before, order);
      Untimed<Response, Diag>(timers, ProducerStop(StopClosed));
      for i := 0 to |order|
        invariant Swept(Replier(s), before, order, i, streams, out) && s == Value()
        invariant Accounts(timers, nextToken - 1, streams) && timers == timers0 + TimerEvents(out)
      {
        var id := order[i];
        SweptStep(Replier(s), before, order, i, streams, out, timers, nextToken - 1);
        SweptEntry(Replier(s), before, order, i, streams, out);
        timers := timers + TimerEvents(Answer<Request, Response, Diag>(Replier(s), id, streams[id]));
        ReplyTo(s, id, streams[id]);
        if streams[id].Some? {
          var held := streams[id].value;
          HeldNeverPanics(s, before, id);
          assert !Panics(Value(), held.request);
          var response := Resolve(Value(), id, held.request);
          if response.Some? {
            out := out + CancelOf(Some(held)) + [ReadResponse(response.value)];
            streams := streams[id := None];
          }
        }
      }
      SweptAll(Replier(s), before, order, streams, out);
      ReleasedWaits(s, before);
    }

    /** A replacement is the next version, sent to every held read behind it. */
    method Replace(bytes: Bytes) returns (out: seq<Sent>)
      requires Valid()
      modifies `version, `payload, `history, `streams, `timers
      ensures Valid() && timers == old(timers) + TimerEvents(out)
      ensures old(sealed || closed) ==>
        out == [Diagnostic(ReplaceAfterTerminal)] && Value() == old(Value()) && history == old(history) && streams == old(streams)
      ensures old(!sealed && !closed) ==>
        && Value() == old(Value()).(version := old(version) + 1, payload := Some(bytes))
        && history == old(history) + [bytes]
        && streams == Released(Replier(Value()), old(streams)) && out == Answers(Replier(Value()), old(streams), order)
    {
      hide Lists, Accounts, Waiting, TimerEvents, Resolve, Released, Answers, NeverPanics;
      if sealed || closed {
        Untimed<Response, Diag>(timers, Diagnostic(ReplaceAfterTerminal));
        return [Diagnostic(ReplaceAfterTerminal)];
      }
      ghost var s, h := Value(), history;
      version := version + 1;
      payload := Some(bytes);
      history := history + [bytes];
      StaysSafe(s, h, Value(), history, streams);
      out := AnswerAllHeld();
    }

    method Seal() returns (out: seq<Sent>)
      requires Valid()
      modifies `sealed, `streams, `timers
      ensures Valid() && timers == old(timers) + TimerEvents(out)
      ensures Value() == old(Value()).(sealed := true)
      ensures old(sealed) ==> out == [] && streams == old(streams)
      ensures !old(sealed) ==> streams == Released(Replier(Value()), old(streams)) && out == Answers(Replier(Value()), old(streams), order)
    {
      hide Lists, Accounts, Waiting, TimerEvents, Resolve, Released, Answers, NeverPanics;
      if sealed {
        Untimed<Response, Diag>(timers, ProducerStop(StopClosed));
        return [];
      }
      ghost var s := Value();
      sealed := true;
      StaysSafe(s, history, Value(), history, streams);
      out := AnswerAllHeld();
    }

    method Close(error: Option<Error>) returns (out: seq<Sent>)
      requires Valid()
      modifies `closed, `closeError, `streams, `timers
      ensures Valid() && timers == old(timers) + TimerEvents(out)
      ensures old(closed) ==> out == [] && streams == old(streams) && Value() == old(Value())
      ensures !old(closed) ==>
        && Value() == old(Value()).(closed := true, closeError := error)
        && streams == Released(Replier(Value()), old(streams))
        && out == Answers(Replier(Value()), old(streams), order) + [ProducerStop(if error.Some? then StopFailed else StopClosed)]
    {
      hide Lists, Accounts, Waiting, TimerEvents, Resolve, Released, Answers, NeverPanics;
      var stop: Sent := ProducerStop(if error.Some? then StopFailed else StopClosed);
      if closed {
        Untimed(timers, stop);
        return [];
      }
      ghost var s := Value();
      closed := true;
      closeError := error;
      StaysSafe(s, history, Value(), history, streams);
      out := AnswerAllHeld();
      UntimedAfter(out, stop);
      out := out + [stop];
    }

    /** Only a read whose payload would be missing is excluded: the source
        panics on it. */
    method Read(streamId: string, atomId: string, asked: Option<int>, timeoutMs: Option<int>) returns (out: seq<Sent>)
      requires Valid() && !Panics(Value(), Request(atomId, if asked.Some? then asked.value else 0, timeoutMs))
      modifies `streams, `order, `nextToken, `timers
      ensures Valid() && timers == old(timers) + TimerEvents(out)
      ensures order == Listed(old(order), old(streams), streamId)
      ensures var q := Request(atomId, if asked.Some? then asked.value else 0, timeoutMs);
        var r := Resolve(Value(), streamId, q);
        streams == old(streams)[streamId := Parked(r, q, timeoutMs, old(nextToken))]
        && nextToken == NextToken(r, timeoutMs, old(nextToken))
        && out == CancelOf(HeldOf(old(streams), streamId)) + Replied(r, timeoutMs, old(nextToken))
    {
      hide Latest, Accounts, Lists, TimerEvents, Resolve, CancelOf, Replied, NextToken, Listed, HeldOf, Parked, Waiting, Panics;
      var q := Request(atomId, if asked.Some? then asked.value else 0, timeoutMs);
      var r := Resolve(Value(), streamId, q);
      ReadBooks<Request, Response, Diag>(streams, order, streamId, r, q, timeoutMs, nextToken, timers);
      ReadWaits(Value(), streams, streamId, q, nextToken);
      streams, order, out := OpenIdle(streams, order, streamId);
      var answer;
      streams, nextToken, answer := AnswerOrPark(streams, streamId, r, q, timeoutMs, nextToken);
      out := out + answer;
      timers := timers + TimerEvents(out);
    }

    method EndStream(streamId: string) returns (out: seq<Sent>)
      requires Valid()
      modifies `streams, `order, `timers
      ensures Valid() && timers == old(timers) + TimerEvents(out) && streams == old(streams) - {streamId}
      ensures order == Without(old(order), streamId)
      ensures out == EndOutputs(old(streams), streamId, stopWhen)
    {
      hide Latest, Accounts, Lists, TimerEvents, Resolve, CancelOf, EndOutputs, Without;
      EndAccounts<Request, Response, Diag>(streams, streamId, stopWhen, timers, nextToken - 1);
      ListsMore(order, streams, streams - {streamId}, streamId);
      streams, order, out := RemoveStream(streams, order, streamId, stopWhen);
      timers := timers + TimerEvents(out);
    }

    /** A timer fires at most once, for the read it was set for, whose probe is
        answered; any other token is ignored. */
    method TimerExpired(token: int) returns (out: seq<Sent>)
      requires Valid()
      modifies `streams, `timers
      ensures Valid()
      ensures (forall id :: !Holds(old(streams), id, token)) ==> out == [] && streams == old(streams) && timers == old(timers)
      ensures forall id | Holds(old(streams), id, token) ::
        && streams == old(streams)[id := None] && timers == old(timers) + [TimerFired(token)]
        && out == [ReadResponse(Response(old(streams)[id].value.request.atomId, id, None, version, WouldBlock, None))]
    {
      hide Accounts, Lists, Resolve;
      out := [];
      var found := FindByToken(streams, token);
      if found.None? { return; }
      var id := found.value;
      FireBooks(streams, order, id, token, timers, nextToken - 1);
      var held := streams[id].value;
      HeldIsSafe(Value(), history, id, held.request, Value(), history);
      streams := streams[id := None];
      timers := timers + [TimerFired(token)];
      out := [ReadResponse(Resolve(Value(), id, held.request.(timeoutMs := Some(0))).value)];
    }

    /** The whole interface: the history only grows, and every response names
        the latest version, with its payload exactly when it is data. */
    method Handle(input: Input) returns (out: seq<Sent>)
      requires Valid()
      requires input.Read? ==>
        !Panics(Value(), Request(input.atomId, if input.asked.Some? then input.asked.value else 0, input.timeoutMs))
      modifies this
      ensures Valid() && old(history) <= history
      ensures timers == old(timers) + TimerEvents(out)
           || (input.TimerExpired? && timers == old(timers) + [TimerFired(input.token)])
      ensures forall r | ReadResponse(r) in out :: IsLatest(history, r)
    {
      hide Lists, Accounts, Waiting, TimerEvents, Resolve, Released, Answers, NeverPanics, Panics, IsLatest, CancelOf, EndOutputs,
        Parked, Replied;
      ghost var before, h := streams, history;
      Untimed<Response, Diag>(timers, ProducerStop(StopClosed));
      match input {
        case Replace(bytes) =>
          ghost var s := Value();
          out := Replace(bytes);
          if !s.sealed && !s.closed {
            StaysSafe(s, h, Value(), history, before);
            SweepIsLatest(Value(), history, before, order);
          }
        case Seal =>
          StaysSafe(Value(), history, Value().(sealed := true), history, before);
          out := Seal();
          SweepIsLatest(Value(), history, before, order);
        case Close(error) =>
          StaysSafe(Value(), history, Value().(closed := true, closeError := error), history, before);
          ghost var was := closed;
          out := Close(error);
          if !was { SweepIsLatest(Value(), history, before, order); }
        case Read(streamId, atomId, asked, timeoutMs) =>
          out := Read(streamId, atomId, asked, timeoutMs);
          var q := Request(atomId, if asked.Some? then asked.value else 0, timeoutMs);
          ReadIsLatest(Value(), history, before, streamId, q, old(nextToken));
        case EndStream(streamId) =>
          out := EndStream(streamId);
          EndSendsNone(before, streamId, stopWhen);
        case TimerExpired(token) =>
          out := TimerExpired(token);
          ProbeIsLatest(history, before, token, version, out);
      }
    }
  }

  datatype Input =
    | Replace(bytes: Bytes)
    | Seal
    | Close(error: Option<Error>)
    | Read(streamId: string, atomId: string, asked: Option<int>, timeoutMs: Option<int>)
    | EndStream(streamId: string)
    | TimerExpired(token: int)

  ghost predicate IsLatest(history: seq<Bytes>, r: Response) {
    && r.nextVersion == |history|
    && (r.state == Data ==> history != [] && r.value == Some(AtomSpec.Value(|history|, history[|history| - 1])))
    && (r.state != Data ==> r.value == None)
  }

  lemma SweepIsLatest(s: Store, history: seq<Bytes>, before: Table<Request>, order: seq<string>)
    requires Latest(s, history) && NeverPanics(s, before)
    ensures forall r | ReadResponse(r) in Answers<Request, Response, Diag>(Replier(s), before, order) :: IsLatest(history, r)
  {
    hide Resolve, IsLatest, Answers;
    forall r | ReadResponse(r) in Answers<Request, Response, Diag>(Replier(s), before, order) ensures IsLatest(history, r) {
      AnswersReply<Request, Response, Diag>(Replier(s), before, order, r);
      var id :| id in order && AnswerTo(Replier(s), id, HeldOf(before, id)) == Some(r);
      AnswerIsLatest(s, history, id, before[id].value.request);
    }
  }

  lemma AnswerIsLatest(s: Store, history: seq<Bytes>, id: string, q: Request)
    requires Latest(s, history) && !Panics(s, q)
    ensures Resolve(s, id, q).Some? ==> IsLatest(history, Resolve(s, id, q).value)
  {
  }

  lemma ReadIsLatest(s: Store, history: seq<Bytes>, before: Table<Request>, id: string, q: Request, token: int)
    requires Latest(s, history) && !Panics(s, q)
    ensures forall r | ReadResponse(r) in CancelOf<Request, Response, Diag>(HeldOf(before, id)) + Replied(Resolve(s, id, q), q.timeoutMs, token) ::
      IsLatest(history, r)
  {
    AnswerIsLatest(s, history, id, q);
    hide IsLatest, Resolve;
  }

  lemma EndSendsNone(before: Table<Request>, id: string, stopWhen: StopWhen)
    ensures forall r :: ReadResponse(r) !in EndOutputs<Request, Response, Diag>(before, id, stopWhen)
  {
  }

  lemma ProbeIsLatest(history: seq<Bytes>, before: Table<Request>, token: int, version: int, out: seq<Sent>)
    requires version == |history| && ((forall id :: !Holds(before, id, token)) ==> out == [])
    requires forall id | Holds(before, id, token) ::
      out == [ReadResponse(Response(before[id].value.request.atomId, id, None, version, WouldBlock, None))]
    ensures forall r | ReadResponse(r) in out :: IsLatest(history, r)
  {
  }

  ghost predicate NeverPanics(s: Store, streams: Table<Request>) {
    forall id | id in streams && streams[id].Some? :: !Panics(s, streams[id].value.request)
  }

  lemma HeldNeverPanics(s: Store, streams: Table<Request>, id: string)
    requires NeverPanics(s, streams) && id in streams && streams[id].Some?
    ensures !Panics(s, streams[id].value.request)
  {
  }

  lemma StaysSafe(s: Store, history: seq<Bytes>, s': Store, history': seq<Bytes>, streams: Table<Request>)
    requires Latest(s, history) && Latest(s', history') && history <= history' && Waiting(s, streams)
    ensures NeverPanics(s', streams)
  {
    forall id | id in streams && streams[id].Some? ensures !Panics(s', streams[id].value.request) {
      HeldIsSafe(s, history, id, streams[id].value.request, s', history');
    }
  }

  lemma ReplyTo(s: Store, id: string, entry: Option<Held<Request>>)
    ensures AnswerTo(Replier(s), id, entry) == if entry.Some? then Resolve(s, id, entry.value.request) else None
  {
  }
}
