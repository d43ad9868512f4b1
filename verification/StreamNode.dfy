/** The bounded stream object: a ring of payloads and node-owned readers. */
module StreamNode {
  import opened Wrappers
  import opened Records
  import opened Timers
  import opened Mailbox
  import opened StreamSpec

  type Readers = map<string, Reader>
  type Journals = map<string, Journal>

  class Node {
    const capacity: int
    const stopWhen: StopWhen
    var head: nat
    var payloads: map<int, Bytes>
    var sealed: bool
    var closed: bool
    var closeError: Option<Error>
    var readers: Readers
    var order: seq<string>
    var nextToken: int
    /** Every accepted push, what each reader was sent, and all timer events. */
    ghost var history: seq<Bytes>
    ghost var journals: Journals
    ghost var timers: seq<TimerEvent>

    function Value(): Ring
      reads `head, `payloads, `sealed, `closed, `closeError
    {
      Ring(capacity, head, payloads, sealed, closed, closeError)
    }

    ghost predicate Books()
      reads this
    {
      && Keeps(Value(), history) && Lists(order, readers) && Journaled(history, readers, journals)
      && Accounts(timers, nextToken - 1, HeldTable(readers))
    }

    ghost predicate Valid()
      reads this
    {
      Books() && AtHead(Value(), readers)
    }

    constructor (capacity: int, stopWhen: StopWhen)
      requires capacity > 0
      ensures Valid() && Value() == Ring(capacity, 0, map[], false, false, None)
      ensures readers == map[] && history == [] && timers == []
    {
      this.capacity, this.stopWhen := capacity, stopWhen;
      head, payloads, sealed, closed, closeError := 0, map[], false, false, None;
      readers, order, nextToken := map[], [], 1;
      history, journals, timers := [], map[], [];
      new;
      AccountsEmpty<Request>();
      assert HeldTable(map[]) == map[];
    }

    /** The loop over the ring from the reader's position. */
    method ResolveAt(id: string, q: Request, cursor: nat) returns (a: Option<Response>)
      requires Keeps(Value(), history) && cursor <= head
      ensures a == Resolve(Value(), id, q, cursor)
    {
      hide Fits, LongestFit, TotalBytes, Keeps;
      ghost var avail, bounds := Available(Value(), cursor), Bounds(q);
      FloorIs(Value(), history);
      if cursor < Floor(Value()) - 1 {
        return Some(Response(id, [], head, Dropped, Some(Error(SlowConsumer, None))));
      }
      EmptyFits(bounds, avail);
      NothingAvailable(bounds);
      Contiguous(Value(), history, cursor);
      var records: seq<Record>, used, seqNo := [], 0, cursor + 1;
      while seqNo in payloads
        invariant seqNo == cursor + 1 + |records| && |records| <= |avail| && records == avail[..|records|]
        invariant Fits(bounds, records) && LongestFit(bounds, avail, |records|) == LongestFit(bounds, avail, 0)
        invariant used == TotalBytes(records)
        decreases |avail| - |records|
      {
        var payload := payloads[seqNo];
        RingStep(Value(), q, cursor, records, used, payload);
        if q.maxRecords.Some? && q.maxRecords.value > 0 && |records| >= q.maxRecords.value { break; }
        if q.maxBytes.Some? && q.maxBytes.value >= 0 && records != [] && used + |payload| > q.maxBytes.value { break; }
        records := records + [Record(seqNo, payload)];
        used := used + |payload|;
        seqNo := seqNo + 1;
      }
      ScanEnds(bounds, avail);
      assert records == Batch(Value(), q, cursor);
      if records != [] {
        a := Some(Response(id, records, records[|records| - 1].seqNo, Data, None));
      } else if closed {
        a := Some(Response(id, [], cursor, if closeError.Some? then Failed else Closed, closeError));
      } else if sealed {
        a := Some(Response(id, [], cursor, Eof, None));
      } else if q.timeoutMs == Some(0) {
        a := Some(Response(id, [], cursor, WouldBlock, None));
      } else {
        a := None;
      }
    }

    /** Answers every held read that can be, in creation order. */
    method AnswerAllHeld() returns (out: seq<Sent>)
      requires Books() && WithinReach(Value(), readers)
      modifies `readers, `journals, `timers
      ensures Books() && timers == old(timers) + TimerEvents(out)
      ensures SweepDone(Value(), old(readers), old(journals), order, readers, journals, out)
      ensures readers == AllSettled(Value(), old(readers))
    {
      hide Keeps, Lists, Journaled, Accounts, HeldTable, WithinReach, SweepDone, Swept, SettledUpTo, Replier, AllNoted, AllSettled,
        Answers, Answer, CancelOf, TimerEvents, Resolve, Cursors;
      ghost var r, before, timers0, journals0 := Value(), readers, timers, journals;
      ghost var reply := Replier(r, Cursors(before));
      out := [];
      Untimed<Response, Diag>(timers, ProducerStop(StopClosed));
      SweepStarts(r, before, order);
      SettledJournaled(r, history, before, journals);
      for i := 0 to |order|
        invariant Value() == r && journals == journals0
        invariant Swept(reply, HeldTable(before), order, i, HeldTable(readers), out)
        invariant SettledUpTo(r, before, order, i, readers)
        invariant Accounts(timers, nextToken - 1, HeldTable(readers)) && timers == timers0 + TimerEvents(out)
      {
        var id := order[i];
        ReaderStep(r, before, order, i, readers, out, timers, nextToken - 1);
        timers := timers + TimerEvents(Answer<Request, Response, Diag>(reply, id, readers[id].held));
        var reader := readers[id];
        if reader.held.Some? {
          HeldInReach(r, history, before, id);
          var response := ResolveAt(id, reader.held.value.request, reader.cursor);
          if response.Some? {
            // A held reader is never behind the ring: the source's branch that
            // removes a dropped reader here is unreachable.
            assert response.value.state != Dropped;
            out := out + CancelOf(reader.held) + [ReadResponse(response.value)];
            readers := readers[id := Reader(response.value.nextPosition, None)];
          }
        }
      }
      journals := AllNoted(r, before, journals);
      SweepEnds(r, before, journals0, order, readers, out);
    }

    /** Writes into the ring, over the oldest payload once it is full. */
    method Insert(payload: Bytes)
      modifies `head, `payloads
      ensures head == old(head) + 1 && payloads == Overwritten(old(payloads), capacity, head, payload)
    {
      head := head + 1;
      payloads := payloads[head := payload];
      if |payloads| > capacity { payloads := payloads - {head - capacity}; }
    }

    /** A push sends every held read the new record; a late one is reported and
        changes nothing. */
    method Push(payload: Bytes) returns (out: seq<Sent>)
      requires Valid()
      modifies `head, `payloads, `history, `readers, `journals, `timers
      ensures Valid() && timers == old(timers) + TimerEvents(out)
      ensures old(sealed || closed) ==>
        out == [Diagnostic(PushAfterTerminal)] && Value() == old(Value()) && history == old(history) && readers == old(readers)
        && journals == old(journals)
      ensures old(!sealed && !closed) ==>
        && Value() == Pushed(old(Value()), payload) && history == old(history) + [payload]
        && SweepDone(Value(), old(readers), old(journals), order, readers, journals, out)
        && AllGot(Value(), old(readers), payload) && NoneHeld(readers)
    {
      hide Keeps, Lists, Journaled, Accounts, HeldTable, WithinReach, AtHead, SweepDone, TimerEvents, AllGot, NoneHeld,
        Overwritten, AllSettled;
      if sealed || closed {
        Untimed<Response, Diag>(timers, Diagnostic(PushAfterTerminal));
        return [Diagnostic(PushAfterTerminal)];
      }
      ghost var r := Value();
      Insert(payload);
      PushBooks(r, history, payload, readers, journals);
      history := history + [payload];
      out := AnswerAllHeld();
    }

    method Seal() returns (out: seq<Sent>)
      requires Valid()
      modifies `sealed, `readers, `journals, `timers
      ensures Valid() && timers == old(timers) + TimerEvents(out)
      ensures old(sealed || closed) ==> out == [] && Value() == old(Value()) && readers == old(readers) && journals == old(journals)
      ensures old(!sealed && !closed) ==>
        && Value() == old(Value()).(sealed := true)
        && SweepDone(Value(), old(readers), old(journals), order, readers, journals, out) && NoneHeld(readers)
        && AllEnded(Value(), old(readers))
    {
      hide Keeps, Lists, Journaled, Accounts, HeldTable, WithinReach, AtHead, SweepDone, TimerEvents, NoneHeld, AllEnded;
      Untimed<Response, Diag>(timers, ProducerStop(StopClosed));
      if sealed || closed { return []; }
      ghost var r := Value();
      sealed := true;
      EndBooks(r, Value(), history, readers);
      out := AnswerAllHeld();
    }

    method Close(error: Option<Error>) returns (out: seq<Sent>)
      requires Valid()
      modifies `closed, `closeError, `readers, `journals, `timers
      ensures Valid() && timers == old(timers) + TimerEvents(out)
      ensures old(closed) ==> out == [] && Value() == old(Value()) && readers == old(readers) && journals == old(journals)
      ensures !old(closed) ==>
        && Value() == old(Value()).(closed := true, closeError := error)
        && out != [] && out[|out| - 1] == ProducerStop(if error.Some? then StopFailed else StopClosed)
        && SweepDone(Value(), old(readers), old(journals), order, readers, journals, out[..|out| - 1]) && NoneHeld(readers)
        && AllEnded(Value(), old(readers))
    {
      hide Keeps, Lists, Journaled, Accounts, HeldTable, WithinReach, AtHead, SweepDone, TimerEvents, NoneHeld, AllEnded;
      var stop: Sent := ProducerStop(if error.Some? then StopFailed else StopClosed);
      Untimed(timers, stop);
      if closed { return []; }
      ghost var r := Value();
      closed := true;
      closeError := error;
      EndBooks(r, Value(), history, readers);
      out := AnswerAllHeld();
      UntimedAfter(out, stop);
      assert (out + [stop])[..|out|] == out;
      out := out + [stop];
    }

    /** Joins an unknown reader at the head and drops a known one's held read. */
    method Supersede(id: string) returns (out: seq<Sent>)
      requires Valid()
      modifies `readers, `order, `journals, `timers
      ensures Valid() && timers == old(timers) + TimerEvents(out)
      ensures order == Listed(old(order), old(readers), id)
      ensures readers == old(readers)[id := Joined(Value(), old(readers), id).(held := None)]
      ensures journals == old(journals)[id := JoinedJournal(Value(), old(journals), id)]
      ensures out == CancelOf(HeldOf(HeldTable(old(readers)), id))
    {
      hide Keeps, Lists, Journaled, Accounts, HeldTable, HeldOf, AtHead, CancelOf, TimerEvents;
      SupersedeBooks(Value(), history, readers, order, journals, timers, nextToken - 1, id);
      ghost var joined := readers[id := Joined(Value(), readers, id).(held := None)];
      if id !in readers {
        readers := readers[id := Reader(head, None)];
        order := order + [id];
        journals := journals[id := Journal(head, [])];
      }
      out := CancelOf(readers[id].held);
      timers := timers + TimerEvents(out);
      assert readers[id := readers[id].(held := None)] == joined;
      readers := readers[id := readers[id].(held := None)];
    }

    /** Removes an idle reader that has fallen out of the ring. */
    method Drop(id: string, response: Response) returns (out: seq<Sent>)
      requires Valid() && id in readers && readers[id].held.None?
      modifies `readers, `order, `journals
      ensures Valid() && timers + TimerEvents(out) == timers
      ensures readers == old(readers) - {id} && order == Without(old(order), id) && journals == old(journals) - {id}
      ensures out == [ReadResponse(response)]
        + if readers == map[] && stopWhen == LastReader then [ProducerStop(LastReaderGone)] else []
    {
      hide Keeps, Lists, Journaled, Accounts, HeldTable, AtHead, TimerEvents;
      DropBooks(Value(), history, readers, order, journals, timers, nextToken - 1, id);
      DropEvents(timers, response);
      readers := readers - {id};
      order := Without(order, id);
      journals := journals - {id};
      out := [ReadResponse(response)];
      assert out + [] == out;
      if readers == map[] && stopWhen == LastReader { out := out + [ProducerStop(LastReaderGone)]; }
    }

    /** Moves an idle reader by its answer, or parks its read. */
    method MoveOrPark(id: string, q: Request, a: Option<Response>) returns (out: seq<Sent>)
      requires Valid() && id in readers && readers[id].held.None? && id in journals
      requires a == Resolve(Value(), id, q, readers[id].cursor) && (a.None? || a.value.state != Dropped)
      modifies `readers, `journals, `nextToken, `timers
      ensures Valid() && timers == old(timers) + TimerEvents(out)
      ensures readers == old(readers)[id := Reader(Moved(old(readers)[id], a), Parked(a, q, q.timeoutMs, old(nextToken)))]
      ensures journals == old(journals)[id := Noted(old(journals)[id], a)]
      ensures out == Replied(a, q.timeoutMs, old(nextToken))
    {
      hide Keeps, Lists, Journaled, Accounts, HeldTable, AtHead, TimerEvents, Resolve, Noted;
      AnswerBooks(Value(), history, readers, order, journals, timers, nextToken, id, q);
      var reader := readers[id];
      timers := timers + TimerEvents<Response, Diag>(Replied(a, q.timeoutMs, nextToken));
      journals := journals[id := Noted(journals[id], a)];
      if a.Some? {
        out := [ReadResponse(a.value)];
        readers := readers[id := Reader(a.value.nextPosition, None)];
      } else if q.timeoutMs.Some? && q.timeoutMs.value > 0 {
        out := [SetTimer(nextToken, q.timeoutMs.value)];
        readers := readers[id := Reader(reader.cursor, Some(Held(q, Some(nextToken))))];
        nextToken := nextToken + 1;
      } else {
        out := [];
        readers := readers[id := Reader(reader.cursor, Some(Held(q, None)))];
      }
    }

    /** A read of a reader that has fallen out of the ring drops it; any other
        is answered or parked. */
    method Read(id: string, q: Request) returns (out: seq<Sent>)
      requires Valid()
      modifies `readers, `order, `journals, `nextToken, `timers
      ensures Valid() && timers == old(timers) + TimerEvents(out)
      ensures ReadDone(Value(), old(readers), old(journals), old(order), id, q, old(nextToken), stopWhen,
                       readers, journals, order, out)
      ensures DropsExactly(Value(), old(readers), id, readers)
    {
      hide Keeps, Lists, Journaled, Accounts, HeldTable, HeldOf, AtHead, CancelOf, TimerEvents, Resolve, ReadDone, DropsExactly,
        Noted, Moved, Parked, Replied, Joined, JoinedJournal, Listed;
      ghost var r, before, journals0, order0, token := Value(), readers, journals, order, nextToken;
      ReadIs(r, history, readers, journals, order, id, q, token, stopWhen);
      out := Supersede(id);
      CursorWithin(r, history, readers, journals, id);
      var a := ResolveAt(id, q, readers[id].cursor);
      var answer;
      if a.Some? && a.value.state == Dropped {
        answer := Drop(id, a.value);
      } else {
        answer := MoveOrPark(id, q, a);
      }
      TimerEventsConcat(out, answer);
      out := out + answer;
    }

    method EndStream(id: string) returns (out: seq<Sent>)
      requires Valid()
      modifies `readers, `order, `journals, `timers
      ensures Valid() && timers == old(timers) + TimerEvents(out)
      ensures readers == old(readers) - {id} && journals == old(journals) - {id} && order == Without(old(order), id)
      ensures out == EndOutputs(HeldTable(old(readers)), id, stopWhen)
    {
      hide Keeps, Lists, Journaled, Accounts, HeldTable, AtHead, TimerEvents, CancelOf, EndOutputs;
      EndBooksOf(Value(), history, readers, order, journals, timers, nextToken - 1, id, stopWhen);
      out := [];
      if id in readers {
        out := CancelOf(readers[id].held);
        readers := readers - {id};
        order := Without(order, id);
        journals := journals - {id};
        if readers == map[] && stopWhen == LastReader { out := out + [ProducerStop(LastReaderGone)]; }
      }
      timers := timers + TimerEvents(out);
    }

    /** The first reader in creation order whose held read waits on `token`. */
    method FindByToken(token: int) returns (found: Option<string>)
      requires Lists(order, readers)
      ensures found.Some? ==> Holds(HeldTable(readers), found.value, token)
      ensures found.None? ==> forall id :: !Holds(HeldTable(readers), id, token)
    {
      for i := 0 to |order|
        invariant forall j | 0 <= j < i :: !Holds(HeldTable(readers), order[j], token)
      {
        var id := order[i];
        assert id in order;
        if readers[id].held.Some? && readers[id].held.value.timer == Some(token) { return Some(id); }
      }
      found := None;
      forall id ensures !Holds(HeldTable(readers), id, token) {
        assert Holds(HeldTable(readers), id, token) ==> id in order;
      }
    }

    /** A timer fires at most once, for the read it was set for, whose probe is
        answered at the head; any other token is ignored. */
    method TimerExpired(token: int) returns (out: seq<Sent>)
      requires Valid()
      modifies `readers, `timers
      ensures Valid()
      ensures (forall id :: !Holds(HeldTable(old(readers)), id, token)) ==>
        out == [] && readers == old(readers) && timers == old(timers)
      ensures forall id | Holds(HeldTable(old(readers)), id, token) ::
        && out == [ReadResponse(Response(id, [], head, WouldBlock, None))]
        && readers == old(readers)[id := Reader(head, None)]
        && timers == old(timers) + [TimerFired(token)]
    {
      hide Keeps, Lists, Journaled, Accounts, HeldTable, AtHead, TimerEvents, Resolve, Holds;
      out := [];
      var found := FindByToken(token);
      if found.None? { return; }
      var id := found.value;
      FiredBooks(Value(), history, readers, order, journals, timers, nextToken - 1, id, token);
      var reader := readers[id];
      var a := ResolveAt(id, reader.held.value.request.(timeoutMs := Some(0)), reader.cursor);
      timers := timers + [TimerFired(token)];
      readers := readers[id := Reader(reader.cursor, None)];
      out := [ReadResponse(a.value)];
    }

    /** The whole interface: the history only grows; a data answer is exactly
        the pushes after its reader's position; and only a read can drop. */
    method Handle(input: Input) returns (out: seq<Sent>)
      requires Valid()
      modifies this
      ensures Valid() && old(history) <= history
      ensures timers == old(timers) + TimerEvents(out)
           || (input.TimerExpired? && timers == old(timers) + [TimerFired(input.token)])
      ensures forall a | ReadResponse(a) in out :: Right(history, old(Value()), old(readers), input, a)
    {
      hide Keeps, Lists, Journaled, Accounts, HeldTable, AtHead, TimerEvents, Resolve, SweepDone, ReadDone, Right, AllGot, AllEnded,
        NoneHeld, Pushed, EndOutputs, Holds, DropsExactly;
      ghost var r, h, before, order0, journals0, token := Value(), history, readers, order, journals, nextToken;
      QuietIsRight(h, r, before, input, stopWhen);
      Untimed<Response, Diag>(timers, ProducerStop(StopClosed));
      match input {
        case Push(payload) =>
          out := Push(payload);
          if !r.sealed && !r.closed {
            PushIsRight(r, h, payload, before, journals0, order, readers, journals, input, out);
          }
        case Seal =>
          out := Seal();
          if !r.sealed && !r.closed { EndIsRight(r, Value(), h, before, journals0, order, readers, journals, input, out); }
        case Close(error) =>
          out := Close(error);
          if !r.closed {
            EndIsRight(r, Value(), h, before, journals0, order, readers, journals, input, out[..|out| - 1]);
            StopIsRight(h, r, before, input, out);
          }
        case Read(id, q) =>
          out := Read(id, q);
          ReadIsRight(r, h, before, journals0, order0, id, q, token, stopWhen, readers, journals, order, out, input);
        case EndStream(id) => out := EndStream(id);
        case TimerExpired(token) =>
          out := TimerExpired(token);
          FiredIsRight(h, r, before, token, head, input, out);
      }
    }
  }

  /* ---------- What a read does ---------- */

  /** The reader as the read finds it: a new one joins at the head. */
  function Joined(r: Ring, readers: Readers, id: string): Reader { if id in readers then readers[id] else Reader(r.head, None) }

  function JoinedJournal(r: Ring, journals: Journals, id: string): Journal {
    if id in journals then journals[id] else Journal(r.head, [])
  }

  /** A reader that was dropped is gone, with its place in the order; any other
      has moved by what it was sent and is held exactly if it was not answered. */
  ghost predicate ReadDone(r: Ring, before: Readers, journals0: Journals, order0: seq<string>, id: string, q: Request,
                           token: int, stopWhen: StopWhen, readers: Readers, journals: Journals, order: seq<string>, out: seq<Sent>)
  {
    var reader := Joined(r, before, id);
    var a := Resolve(r, id, q, reader.cursor);
    var cancelled: seq<Sent> := CancelOf(HeldOf(HeldTable(before), id));
    if a.Some? && a.value.state == Dropped then
      && readers == before - {id} && journals == journals0 - {id} && order == Without(Listed(order0, before, id), id)
      && out == cancelled + ([ReadResponse(a.value)]
           + if readers == map[] && stopWhen == LastReader then [ProducerStop(LastReaderGone)] else [])
    else
      && readers == before[id := Reader(Moved(reader, a), Parked(a, q, q.timeoutMs, token))]
      && journals == journals0[id := Noted(JoinedJournal(r, journals0, id), a)]
      && order == Listed(order0, before, id)
      && out == cancelled + Replied(a, q.timeoutMs, token)
  }

  /* ---------- The sweep, step by step ---------- */

  ghost predicate SweepDone(r: Ring, before: Readers, journals0: Journals, order: seq<string>, readers: Readers,
                            journals: Journals, out: seq<Sent>)
  {
    && readers == AllSettled(r, before) && journals == AllNoted(r, before, journals0)
    && out == Answers(Replier(r, Cursors(before)), HeldTable(before), order)
  }

  ghost predicate SettledUpTo(r: Ring, before: Readers, order: seq<string>, i: nat, readers: Readers) {
    && i <= |order| && Lists(order, before) && readers.Keys == before.Keys
    && forall j | 0 <= j < |order| :: readers[order[j]] == if j < i then Settled(r, order[j], before[order[j]]) else before[order[j]]
  }

  lemma SweepStarts(r: Ring, readers: Readers, order: seq<string>)
    requires Lists(order, readers)
    ensures Swept<Request, Response, Diag>(Replier(r, Cursors(readers)), HeldTable(readers), order, 0, HeldTable(readers), [])
    ensures SettledUpTo(r, readers, order, 0, readers)
  {
    assert forall j | 0 <= j < |order| :: order[j] in order;
    SweptNone<Request, Response, Diag>(Replier(r, Cursors(readers)), HeldTable(readers), order);
  }

  lemma ReaderStep(r: Ring, before: Readers, order: seq<string>, i: nat, readers: Readers, out: seq<Sent>,
                   timers: seq<TimerEvent>, issued: int)
    requires Swept(Replier(r, Cursors(before)), HeldTable(before), order, i, HeldTable(readers), out)
    requires SettledUpTo(r, before, order, i, readers) && i < |order| && Accounts(timers, issued, HeldTable(readers))
    ensures order[i] in readers && order[i] in before && readers[order[i]] == before[order[i]]
    ensures var id, reader, reply := order[i], readers[order[i]], Replier(r, Cursors(before));
      var sent: seq<Sent> := Answer(reply, id, reader.held);
      var a := HeldAnswer(r, id, reader);
      var readers' := if a.Some? then readers[id := Reader(a.value.nextPosition, None)] else readers;
      && Swept(reply, HeldTable(before), order, i + 1, HeldTable(readers'), out + sent)
      && SettledUpTo(r, before, order, i + 1, readers')
      && Accounts(timers + TimerEvents(sent), issued, HeldTable(readers'))
      && TimerEvents(out + sent) == TimerEvents(out) + TimerEvents(sent)
      && out + sent == (if a.Some? then out + CancelOf(reader.held) + [ReadResponse(a.value)] else out)
  {
    hide *;
    ReaderSettled(r, before, order, i, readers);
    SweptStep(Replier(r, Cursors(before)), HeldTable(before), order, i, HeldTable(readers), out, timers, issued);
    AnswerToReader(r, before, order[i]);
  }

  lemma ReaderSettled(r: Ring, before: Readers, order: seq<string>, i: nat, readers: Readers)
    requires SettledUpTo(r, before, order, i, readers) && i < |order|
    ensures order[i] in readers && order[i] in before && readers[order[i]] == before[order[i]]
    ensures HeldTable(readers)[order[i]] == readers[order[i]].held
    ensures var id, reader := order[i], readers[order[i]];
      var a := HeldAnswer(r, id, reader);
      var readers' := if a.Some? then readers[id := Reader(a.value.nextPosition, None)] else readers;
      && SettledUpTo(r, before, order, i + 1, readers')
      && HeldTable(readers') == HeldTable(readers)[id := if a.Some? then None else reader.held]
  {
    hide HeldAnswer;
    assert order[i] in order;
    assert readers[order[i] := readers[order[i]]] == readers;
  }

  lemma AnswerToReader(r: Ring, before: Readers, id: string)
    requires id in before
    ensures AnswerTo(Replier(r, Cursors(before)), id, before[id].held) == HeldAnswer(r, id, before[id])
  {
  }

  lemma SweepEnds(r: Ring, before: Readers, journals0: Journals, order: seq<string>, readers: Readers, out: seq<Sent>)
    requires Swept(Replier(r, Cursors(before)), HeldTable(before), order, |order|, HeldTable(readers), out)
    requires SettledUpTo(r, before, order, |order|, readers)
    ensures SweepDone(r, before, journals0, order, readers, AllNoted(r, before, journals0), out)
    ensures Lists(order, readers) && readers == AllSettled(r, before)
  {
    AllUpTo(r, before, order, readers);
    SweptAll(Replier(r, Cursors(before)), HeldTable(before), order, HeldTable(readers), out);
    hide AllSettled, AllNoted, Lists, Answers, Swept, Replier, Cursors, HeldTable, SettledUpTo;
  }

  lemma AllUpTo(r: Ring, before: Readers, order: seq<string>, readers: Readers)
    requires SettledUpTo(r, before, order, |order|, readers)
    ensures Lists(order, readers) && readers == AllSettled(r, before)
  {
    hide Settled;
    forall id | id in before ensures readers[id] == Settled(r, id, before[id]) {
      assert id in order;
    }
  }

  lemma HeldInReach(r: Ring, history: seq<Bytes>, before: Readers, id: string)
    requires Keeps(r, history) && WithinReach(r, before) && id in before && before[id].held.Some?
    ensures before[id].cursor <= r.head
    ensures HeldAnswer(r, id, before[id]) == Resolve(r, id, before[id].held.value.request, before[id].cursor)
    ensures HeldAnswer(r, id, before[id]).Some? ==> HeldAnswer(r, id, before[id]).value.state != Dropped
  {
    AnswersExactly(r, history, id, before[id].held.value.request, before[id].cursor);
  }

  /* ---------- What a push or an end answers ---------- */

  ghost predicate NoneHeld(readers: Readers) { forall id | id in readers :: readers[id].held.None? }

  /** Every reader that was held is sent the new record alone. */
  ghost predicate AllGot(r: Ring, before: Readers, payload: Bytes) {
    forall id | id in before && before[id].held.Some? ::
      HeldAnswer(r, id, before[id]) == Some(Response(id, [Record(r.head, payload)], r.head, Data, None))
  }

  /** Every reader that was held is told that the stream ended. */
  ghost predicate AllEnded(r: Ring, before: Readers) {
    forall id | id in before && before[id].held.Some? ::
      HeldAnswer(r, id, before[id]).Some? && HeldAnswer(r, id, before[id]).value.records == []
      && HeldAnswer(r, id, before[id]).value.state in {Eof, Closed, Failed}
  }

  lemma AllReleased(r: Ring, before: Readers)
    requires forall id | id in before && before[id].held.Some? :: HeldAnswer(r, id, before[id]).Some?
    ensures NoneHeld(AllSettled(r, before)) && AtHead(r, AllSettled(r, before))
  {
    hide HeldAnswer;
  }

  lemma PushBooks(r: Ring, history: seq<Bytes>, payload: Bytes, readers: Readers, journals: Journals)
    requires Keeps(r, history) && AtHead(r, readers) && Journaled(history, readers, journals)
    ensures var s := Pushed(r, payload);
      && Keeps(s, history + [payload]) && Journaled(history + [payload], readers, journals) && WithinReach(s, readers)
      && AllGot(s, readers, payload) && NoneHeld(AllSettled(s, readers)) && AtHead(s, AllSettled(s, readers))
  {
    PushKeeps(r, history, payload);
    PushAnswersAll(r, history, payload, readers);
    hide HeldAnswer, Resolve, AtHead;
    AllReleased(Pushed(r, payload), readers);
    assert (history + [payload])[..|history|] == history;
    forall id | id in readers
      ensures Entries(history, journals[id].joined, readers[id].cursor) == Entries(history + [payload], journals[id].joined, readers[id].cursor)
    {
    }
  }

  lemma EndBooks(r: Ring, s: Ring, history: seq<Bytes>, readers: Readers)
    requires Keeps(r, history) && AtHead(r, readers) && s == r.(sealed := s.sealed, closed := s.closed, closeError := s.closeError)
    requires s.sealed || s.closed
    ensures Keeps(s, history) && WithinReach(s, readers) && NoneHeld(AllSettled(s, readers)) && AtHead(s, AllSettled(s, readers))
    ensures AllEnded(s, readers)
  {
    EndAnswersAll(r, s, history, readers);
    AllReleased(s, readers);
  }

  /* ---------- The scan of the ring ---------- */

  lemma Contiguous(r: Ring, history: seq<Bytes>, cursor: nat)
    requires Keeps(r, history) && Evicted(r) <= cursor <= r.head
    ensures forall i | i > cursor :: i in r.payloads <==> i <= r.head
  {
  }

  /** The two checks of an iteration decide whether one more record fits. */
  lemma RingStep(r: Ring, q: Request, cursor: nat, records: seq<Record>, used: int, payload: Bytes)
    requires var avail := Available(r, cursor);
      && |records| < |avail| && records == avail[..|records|] && Fits(Bounds(q), records) && used == TotalBytes(records)
    requires payload == PayloadAt(r, cursor + 1 + |records|)
    ensures var avail, more := Available(r, cursor), records + [Record(cursor + 1 + |records|, payload)];
      && more == avail[..|more|] && used + |payload| == TotalBytes(more)
      && (Fits(Bounds(q), more) <==>
            !(q.maxRecords.Some? && q.maxRecords.value > 0 && |records| >= q.maxRecords.value)
            && !(q.maxBytes.Some? && q.maxBytes.value >= 0 && records != [] && used + |payload| > q.maxBytes.value))
      && LongestFit(Bounds(q), avail, |records|)
         == if Fits(Bounds(q), more) then LongestFit(Bounds(q), avail, |more|) else |records|
  {
    var avail, k := Available(r, cursor), |records|;
    var more := records + [Record(cursor + 1 + k, payload)];
    assert avail[k] == Record(cursor + 1 + k, payload);
    hide Available, PayloadAt;
    MoreIs(avail, k, more);
    ScanStep(Bounds(q), avail, k, Min(used, U64_MAX));
    hide LongestFit, Fits, TotalBytes;
  }

  lemma MoreIs(avail: seq<Record>, k: nat, more: seq<Record>)
    requires k < |avail| && more == avail[..k] + [avail[k]]
    ensures more == avail[..k + 1] && TotalBytes(more) == TotalBytes(avail[..k]) + |avail[k].payload|
  {
    assert more[..k] == avail[..k];
  }

  /* ---------- One reader's read ---------- */

  lemma HeldTableWith(readers: Readers, id: string, reader: Reader)
    ensures HeldTable(readers[id := reader]) == HeldTable(readers)[id := reader.held]
    ensures HeldTable(readers - {id}) == HeldTable(readers) - {id}
    ensures HeldTable(readers).Keys == readers.Keys
    ensures id in readers ==> HeldOf(HeldTable(readers), id) == readers[id].held
    ensures id !in readers ==> HeldOf(HeldTable(readers), id) == None
  {
  }

  lemma SupersedeBooks(r: Ring, history: seq<Bytes>, readers: Readers, order: seq<string>, journals: Journals,
                       timers: seq<TimerEvent>, issued: int, id: string)
    requires Keeps(r, history) && Lists(order, readers) && Journaled(history, readers, journals) && AtHead(r, readers)
    requires Accounts(timers, issued, HeldTable(readers))
    ensures var reader := Joined(r, readers, id);
      var readers' := readers[id := reader.(held := None)];
      var journals' := if id in readers then journals else journals[id := Journal(r.head, [])];
      && Lists(Listed(order, readers, id), readers')
      && Journaled(history, readers', journals') && journals' == journals[id := JoinedJournal(r, journals, id)]
      && AtHead(r, readers')
      && Accounts(timers + TimerEvents<Response, Diag>(CancelOf(reader.held)), issued, HeldTable(readers'))
      && reader.held == HeldOf(HeldTable(readers), id)
  {
    hide *;
    var reader := Joined(r, readers, id);
    SupersedeAccounts<Request, Response, Diag>(HeldTable(readers), id, timers, issued);
    JoinJournaled(r, history, readers, journals, id);
    HeldTableWith(readers, id, reader.(held := None));
    JoinListed(r, readers, order, id);
  }

  lemma JoinListed(r: Ring, readers: Readers, order: seq<string>, id: string)
    requires Lists(order, readers) && AtHead(r, readers)
    ensures var readers' := readers[id := Joined(r, readers, id).(held := None)];
      Lists(Listed(order, readers, id), readers') && AtHead(r, readers')
    ensures Joined(r, readers, id).held == if id in readers then readers[id].held else None
  {
    var readers' := readers[id := Joined(r, readers, id).(held := None)];
    assert id in readers ==> readers'.Keys == readers.Keys;
    ListsMore(order, readers, readers', id);
    hide Lists;
  }

  lemma JoinJournaled(r: Ring, history: seq<Bytes>, readers: Readers, journals: Journals, id: string)
    requires Keeps(r, history) && Journaled(history, readers, journals)
    ensures var reader := Joined(r, readers, id);
      var journals' := if id in readers then journals else journals[id := Journal(r.head, [])];
      Journaled(history, readers[id := reader.(held := None)], journals') && journals' == journals[id := JoinedJournal(r, journals, id)]
  {
    assert id in readers ==> id in journals && journals[id := journals[id]] == journals;
  }

  lemma CursorWithin(r: Ring, history: seq<Bytes>, readers: Readers, journals: Journals, id: string)
    requires Keeps(r, history) && Journaled(history, readers, journals) && id in readers
    ensures readers[id].cursor <= r.head && id in journals
  {
  }

  /** Answering or parking an idle reader, unless it is dropped. */
  lemma AnswerBooks(r: Ring, history: seq<Bytes>, readers: Readers, order: seq<string>, journals: Journals,
                    timers: seq<TimerEvent>, token: int, id: string, q: Request)
    requires Keeps(r, history) && Lists(order, readers) && Journaled(history, readers, journals) && AtHead(r, readers)
    requires Accounts(timers, token - 1, HeldTable(readers)) && id in readers && readers[id].held.None? && id in journals
    ensures var a := Resolve(r, id, q, readers[id].cursor);
      var readers' := readers[id := Reader(Moved(readers[id], a), Parked(a, q, q.timeoutMs, token))];
      a.None? || a.value.state != Dropped ==>
        && Lists(order, readers') && Journaled(history, readers', journals[id := Noted(journals[id], a)]) && AtHead(r, readers')
        && Accounts(timers + TimerEvents<Response, Diag>(Replied(a, q.timeoutMs, token)), NextToken(a, q.timeoutMs, token) - 1,
                    HeldTable(readers'))
  {
    var a := Resolve(r, id, q, readers[id].cursor);
    if a.None? || a.value.state != Dropped {
      AnswerMoves(r, history, readers, journals, id, q, Parked(a, q, q.timeoutMs, token));
      hide Resolve, Keeps, Journaled, AtHead, Accounts, Moved, HeldTable;
      var reader := Reader(Moved(readers[id], a), Parked(a, q, q.timeoutMs, token));
      HeldTableWith(readers, id, reader);
      ListsMore(order, readers, readers[id := reader], id);
      assert readers[id := reader].Keys == readers.Keys;
      ParkAccounts<Request, Response, Diag>(HeldTable(readers), id, a, q, q.timeoutMs, token, timers);
    }
  }

  lemma AnswerMoves(r: Ring, history: seq<Bytes>, readers: Readers, journals: Journals, id: string, q: Request,
                    held: Option<Held<Request>>)
    requires Keeps(r, history) && Journaled(history, readers, journals) && AtHead(r, readers) && id in readers && id in journals
    requires var a := Resolve(r, id, q, readers[id].cursor);
      && (a.None? || a.value.state != Dropped) && (a.Some? ==> held == None) && (a.None? ==> held.Some? && held.value.request == q)
    ensures var a := Resolve(r, id, q, readers[id].cursor);
      var readers' := readers[id := Reader(Moved(readers[id], a), held)];
      Journaled(history, readers', journals[id := Noted(journals[id], a)]) && AtHead(r, readers')
  {
    AnswersExactly(r, history, id, q, readers[id].cursor);
    AnswerJournaled(r, history, id, q, readers[id], journals[id]);
    hide Resolve, Keeps;
  }

  lemma DropBooks(r: Ring, history: seq<Bytes>, readers: Readers, order: seq<string>, journals: Journals,
                  timers: seq<TimerEvent>, issued: int, id: string)
    requires Lists(order, readers) && Journaled(history, readers, journals) && AtHead(r, readers)
    requires Accounts(timers, issued, HeldTable(readers)) && id in readers
    ensures Lists(Without(order, id), readers - {id}) && Journaled(history, readers - {id}, journals - {id})
    ensures AtHead(r, readers - {id})
    ensures readers[id].held.None? ==> Accounts(timers, issued, HeldTable(readers - {id}))
  {
    HeldTableWith(readers, id, readers[id]);
    ReadersWithout(r, history, readers, order, journals, id);
    if readers[id].held.None? {
      Release(timers, issued, HeldTable(readers), id, HeldTable(readers) - {id}, []);
      assert timers + [] == timers;
    }
  }

  lemma DropEvents(timers: seq<TimerEvent>, a: Response)
    ensures timers + TimerEvents<Response, Diag>([ReadResponse(a)]) == timers
    ensures timers + TimerEvents<Response, Diag>([ReadResponse(a)] + [ProducerStop(LastReaderGone)]) == timers
  {
    Untimed<Response, Diag>(timers, ReadResponse(a));
    UntimedAfter<Response, Diag>([ReadResponse(a)], ProducerStop(LastReaderGone));
  }

  /** The reader is removed exactly when more than the capacity behind. */
  ghost predicate DropsExactly(r: Ring, before: Readers, id: string, readers: Readers) {
    id !in readers <==> r.head - Joined(r, before, id).cursor > r.capacity
  }

  lemma ReadIs(r: Ring, history: seq<Bytes>, before: Readers, journals0: Journals, order0: seq<string>, id: string, q: Request,
               token: int, stopWhen: StopWhen)
    requires Keeps(r, history) && Journaled(history, before, journals0)
    ensures var reader := Joined(r, before, id);
      var readers1, journals1 := before[id := reader.(held := None)], journals0[id := JoinedJournal(r, journals0, id)];
      var a := Resolve(r, id, q, reader.cursor);
      var cancelled: seq<Sent> := CancelOf(HeldOf(HeldTable(before), id));
      if a.Some? && a.value.state == Dropped then
        && ReadDone(r, before, journals0, order0, id, q, token, stopWhen, readers1 - {id}, journals1 - {id},
                    Without(Listed(order0, before, id), id),
                    cancelled + ([ReadResponse(a.value)]
                      + if readers1 - {id} == map[] && stopWhen == LastReader then [ProducerStop(LastReaderGone)] else []))
        && DropsExactly(r, before, id, readers1 - {id})
      else
        var readers2 := readers1[id := Reader(Moved(readers1[id], a), Parked(a, q, q.timeoutMs, token))];
        && ReadDone(r, before, journals0, order0, id, q, token, stopWhen, readers2, journals1[id := Noted(journals1[id], a)],
                    Listed(order0, before, id), cancelled + Replied(a, q.timeoutMs, token))
        && DropsExactly(r, before, id, readers2)
  {
    var reader := Joined(r, before, id);
    AnswersExactly(r, history, id, q, reader.cursor);
    hide Resolve, Noted, Parked, Replied, CancelOf, HeldTable, Without;
    var readers1, journals1 := before[id := reader.(held := None)], journals0[id := JoinedJournal(r, journals0, id)];
    assert readers1 - {id} == before - {id} && journals1 - {id} == journals0 - {id};
    var a := Resolve(r, id, q, reader.cursor);
    var moved, noted := Reader(Moved(reader, a), Parked(a, q, q.timeoutMs, token)), Noted(JoinedJournal(r, journals0, id), a);
    assert readers1[id := moved] == before[id := moved] && journals1[id := noted] == journals0[id := noted];
  }

  lemma EndBooksOf(r: Ring, history: seq<Bytes>, readers: Readers, order: seq<string>, journals: Journals,
                   timers: seq<TimerEvent>, issued: int, id: string, stopWhen: StopWhen)
    requires Lists(order, readers) && Journaled(history, readers, journals) && AtHead(r, readers)
    requires Accounts(timers, issued, HeldTable(readers))
    ensures var out: seq<Sent> := EndOutputs(HeldTable(readers), id, stopWhen);
      && Lists(Without(order, id), readers - {id}) && Journaled(history, readers - {id}, journals - {id})
      && AtHead(r, readers - {id}) && Accounts(timers + TimerEvents(out), issued, HeldTable(readers - {id}))
      && (id !in readers ==>
            out == [] && readers - {id} == readers && journals - {id} == journals && Without(order, id) == order)
      && (id in readers ==>
            var cancelled := CancelOf(readers[id].held);
            out == if readers - {id} == map[] && stopWhen == LastReader then cancelled + [ProducerStop(LastReaderGone)] else cancelled)
  {
    hide *;
    HeldTableWith(readers, id, Reader(0, None));
    EndAccounts<Request, Response, Diag>(HeldTable(readers), id, stopWhen, timers, issued);
    ReadersWithout(r, history, readers, order, journals, id);
    EndShape(readers, id, stopWhen);
  }

  lemma EndShape(readers: Readers, id: string, stopWhen: StopWhen)
    ensures var out: seq<Sent> := EndOutputs(HeldTable(readers), id, stopWhen);
      && (id !in readers ==> out == [])
      && (id in readers ==>
            var cancelled := CancelOf(readers[id].held);
            out == if readers - {id} == map[] && stopWhen == LastReader then cancelled + [ProducerStop(LastReaderGone)] else cancelled)
  {
    HeldTableWith(readers, id, Reader(0, None));
    hide HeldTable;
    if id in readers {
      LastStream(readers, id);
      assert CancelOf<Request, Response, Diag>(readers[id].held) + [] == CancelOf(readers[id].held);
    }
  }

  lemma ReadersWithout(r: Ring, history: seq<Bytes>, readers: Readers, order: seq<string>, journals: Journals, id: string)
    requires Lists(order, readers) && Journaled(history, readers, journals) && AtHead(r, readers)
    ensures Lists(Without(order, id), readers - {id}) && Journaled(history, readers - {id}, journals - {id})
    ensures AtHead(r, readers - {id})
    ensures id !in readers ==> readers - {id} == readers && journals - {id} == journals && Without(order, id) == order
  {
    JournalsWithout(history, readers, journals, id);
    hide Journaled;
    assert (readers - {id}).Keys == readers.Keys - {id};
    ListsMore(order, readers, readers - {id}, id);
    hide Lists, Without;
    if id !in readers {
      NotListed(order, readers, id);
      assert readers - {id} == readers;
    }
  }

  lemma JournalsWithout(history: seq<Bytes>, readers: Readers, journals: Journals, id: string)
    requires Journaled(history, readers, journals)
    ensures Journaled(history, readers - {id}, journals - {id})
    ensures id !in readers ==> journals - {id} == journals
  {
    hide Entries;
    assert (readers - {id}).Keys == readers.Keys - {id} && (journals - {id}).Keys == journals.Keys - {id};
    if id !in readers { assert id !in journals; }
  }

  lemma FiredBooks(r: Ring, history: seq<Bytes>, readers: Readers, order: seq<string>, journals: Journals,
                   timers: seq<TimerEvent>, issued: int, id: string, token: int)
    requires Keeps(r, history) && Lists(order, readers) && Journaled(history, readers, journals) && AtHead(r, readers)
    requires Accounts(timers, issued, HeldTable(readers)) && Holds(HeldTable(readers), id, token)
    ensures id in readers && readers[id].held.Some? && readers[id].cursor == r.head
    ensures Resolve(r, id, readers[id].held.value.request.(timeoutMs := Some(0)), r.head)
      == Some(Response(id, [], r.head, WouldBlock, None))
    ensures var readers' := readers[id := Reader(r.head, None)];
      && Lists(order, readers') && Journaled(history, readers', journals) && AtHead(r, readers')
      && Accounts(timers + [TimerFired(token)], issued, HeldTable(readers'))
    ensures forall x | Holds(HeldTable(readers), x, token) :: x == id
  {
    ProbeAnswers(r, history, id, readers[id]);
    hide Resolve, Keeps;
    HeldTableWith(readers, id, Reader(r.head, None));
    Release(timers, issued, HeldTable(readers), id, HeldTable(readers)[id := None], [TimerFired(token)]);
    ListsMore(order, readers, readers[id := Reader(r.head, None)], id);
    assert readers[id := Reader(r.head, None)].Keys == readers.Keys;
  }

  /* ---------- What the responses are ---------- */

  datatype Input =
    | Push(payload: Bytes)
    | Seal
    | Close(error: Option<Error>)
    | Read(id: string, q: Request)
    | EndStream(id: string)
    | TimerExpired(token: int)

  /** `a` answers a reader, known or joining, that stood where `before` says. */
  ghost predicate Right(history: seq<Bytes>, r: Ring, before: Readers, input: Input, a: Response) {
    var cursor := Joined(r, before, a.streamId).cursor;
    && (a.streamId in before || (input.Read? && a.streamId == input.id))
    && (a.state == Data ==> cursor < a.nextPosition <= |history| && a.records == Entries(history, cursor, a.nextPosition))
    && (a.state != Data ==> a.records == [])
    && (a.state == Dropped ==> input.Read? && r.head - cursor > r.capacity)
  }

  lemma SweepIsRight(s: Ring, before: Readers, order: seq<string>, a: Response)
    requires ReadResponse(a) in Answers<Request, Response, Diag>(Replier(s, Cursors(before)), HeldTable(before), order)
    ensures a.streamId in before && before[a.streamId].held.Some? && HeldAnswer(s, a.streamId, before[a.streamId]) == Some(a)
  {
    hide Answers;
    AnswersReply<Request, Response, Diag>(Replier(s, Cursors(before)), HeldTable(before), order, a);
    var id :| id in order && AnswerTo(Replier(s, Cursors(before)), id, HeldOf(HeldTable(before), id)) == Some(a);
    AnswerToReader(s, before, id);
  }

  lemma PushIsRight(r: Ring, history: seq<Bytes>, payload: Bytes, before: Readers, journals0: Journals, order: seq<string>,
                    readers: Readers, journals: Journals, input: Input, out: seq<Sent>)
    requires Keeps(r, history) && AtHead(r, before) && AllGot(Pushed(r, payload), before, payload)
    requires SweepDone(Pushed(r, payload), before, journals0, order, readers, journals, out)
    ensures forall a | ReadResponse(a) in out :: Right(history + [payload], r, before, input, a)
  {
    forall a | ReadResponse(a) in out ensures Right(history + [payload], r, before, input, a) {
      hide Answers, HeldAnswer, AllSettled, AllNoted;
      SweepIsRight(Pushed(r, payload), before, order, a);
      assert Entries(history + [payload], r.head, r.head + 1) == [Record(r.head + 1, payload)];
    }
  }

  lemma EndIsRight(r: Ring, s: Ring, history: seq<Bytes>, before: Readers, journals0: Journals, order: seq<string>,
                   readers: Readers, journals: Journals, input: Input, out: seq<Sent>)
    requires AllEnded(s, before) && SweepDone(s, before, journals0, order, readers, journals, out)
    ensures forall a | ReadResponse(a) in out :: Right(history, r, before, input, a)
  {
    forall a | ReadResponse(a) in out ensures Right(history, r, before, input, a) {
      hide Answers, HeldAnswer, AllSettled, AllNoted;
      SweepIsRight(s, before, order, a);
    }
  }

  lemma StopIsRight(history: seq<Bytes>, r: Ring, before: Readers, input: Input, out: seq<Sent>)
    requires out != [] && out[|out| - 1].ProducerStop?
    requires forall a | ReadResponse(a) in out[..|out| - 1] :: Right(history, r, before, input, a)
    ensures forall a | ReadResponse(a) in out :: Right(history, r, before, input, a)
  {
    hide Right;
    assert out == out[..|out| - 1] + [out[|out| - 1]];
  }

  lemma QuietIsRight(history: seq<Bytes>, r: Ring, before: Readers, input: Input, stopWhen: StopWhen)
    ensures forall a, id :: ReadResponse(a) !in EndOutputs<Request, Response, Diag>(HeldTable(before), id, stopWhen)
  {
  }

  lemma ReadIsRight(r: Ring, history: seq<Bytes>, before: Readers, journals0: Journals, order0: seq<string>, id: string, q: Request,
                    token: int, stopWhen: StopWhen, readers: Readers, journals: Journals, order: seq<string>, out: seq<Sent>, input: Input)
    requires Keeps(r, history) && Journaled(history, before, journals0) && input == Read(id, q)
    requires ReadDone(r, before, journals0, order0, id, q, token, stopWhen, readers, journals, order, out)
    ensures forall a | ReadResponse(a) in out :: Right(history, r, before, input, a)
  {
    AnswersExactly(r, history, id, q, Joined(r, before, id).cursor);
    ResponseTo(r, id, q, Joined(r, before, id).cursor);
    hide Resolve, HeldTable;
  }

  lemma ResponseTo(r: Ring, id: string, q: Request, cursor: nat)
    ensures Resolve(r, id, q, cursor).Some? ==>
      Resolve(r, id, q, cursor).value.streamId == id
      && (Resolve(r, id, q, cursor).value.state != Data ==> Resolve(r, id, q, cursor).value.records == [])
  {
  }

  lemma FiredIsRight(history: seq<Bytes>, r: Ring, before: Readers, token: int, head: nat, input: Input, out: seq<Sent>)
    requires (forall id :: !Holds(HeldTable(before), id, token)) ==> out == []
    requires forall id | Holds(HeldTable(before), id, token) :: out == [ReadResponse(Response(id, [], head, WouldBlock, None))]
    ensures forall a | ReadResponse(a) in out :: Right(history, r, before, input, a)
  {
  }
}
