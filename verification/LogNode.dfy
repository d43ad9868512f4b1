/** The log mailbox object over its window and session table. */
module LogNode {
  import opened Wrappers
  import opened Timers
  import opened Mailbox
  import opened Records
  import opened LogWindow
  import opened LogSession
  import opened LogSpec

  type Entries = map<string, Entry>

  /** The data answer `r` moves its stream's watermark; no other answer does. */
  function Marked(entries: Entries, id: string, r: Option<Response>): Entries {
    if id in entries && r.Some? && r.value.state == Data then entries[id := entries[id].(watermark := r.value.nextCursor)]
    else entries
  }

  function Noted(delivered: map<string, nat>, id: string, r: Option<Response>): map<string, nat> {
    if r.Some? && r.value.state == Data then delivered[id := r.value.nextCursor] else delivered
  }

  lemma MarkedKeeps(w: WindowState, history: seq<Bytes>, entries: Entries, delivered: map<string, nat>, safe: bool,
                    id: string, q: Request)
    requires Dense(w, history) && Watermarked(w, entries, delivered, safe) && id in entries
    ensures var r := AnswerAt(w, id, q); Watermarked(w, Marked(entries, id, r), Noted(delivered, id, r), safe)
    ensures HeldTable(Marked(entries, id, AnswerAt(w, id, q))) == HeldTable(entries)
    ensures AtHead(w, entries) ==> AtHead(w, Marked(entries, id, AnswerAt(w, id, q)))
  {
    var r := AnswerAt(w, id, q);
    if r.Some? && r.value.state == Data {
      DataIsHistory(w, history, id, q);
      hide AnswerAt;
      MarkedAt(w, entries, delivered, safe, id, r.value);
    }
  }

  lemma MarkedAt(w: WindowState, entries: Entries, delivered: map<string, nat>, safe: bool, id: string, r: Response)
    requires Watermarked(w, entries, delivered, safe) && id in entries && r.state == Data
    requires Evicted(w) <= r.nextCursor <= w.head
    ensures Watermarked(w, Marked(entries, id, Some(r)), Noted(delivered, id, Some(r)), safe)
    ensures HeldTable(Marked(entries, id, Some(r))) == HeldTable(entries)
    ensures AtHead(w, entries) ==> AtHead(w, Marked(entries, id, Some(r)))
  {
  }

  lemma ClearedKeeps(w: WindowState, t: TableState, id: string, delivered: map<string, nat>, safe: bool)
    requires Watermarked(w, t.entries, delivered, safe)
    ensures Watermarked(w, Cleared(t, id).entries, delivered, safe)
    ensures id in t.entries ==> HeldTable(Cleared(t, id).entries) == HeldTable(t.entries)[id := None]
    ensures id !in t.entries ==> Cleared(t, id) == t
    ensures AtHead(w, t.entries) ==> AtHead(w, Cleared(t, id).entries)
    ensures id in t.entries ==> Cleared(t, id).entries == t.entries[id := t.entries[id].(held := None)]
  {
    assert id in t.entries && t.entries[id].held.None? ==> t.entries[id := t.entries[id]] == t.entries;
  }

  lemma OpenedKeeps(w: WindowState, t: TableState, id: string, delivered: map<string, nat>, safe: bool)
    requires Watermarked(w, t.entries, delivered, safe)
    ensures Watermarked(w, Opened(t, id).entries, delivered, safe) && id in Opened(t, id).entries
    ensures HeldTable(Opened(t, id).entries) == if id in t.entries then HeldTable(t.entries) else HeldTable(t.entries)[id := None]
    ensures AtHead(w, t.entries) ==> AtHead(w, Opened(t, id).entries)
  {
  }

  /** The release sweep after the streams `done`. */
  ghost predicate Woken(w: WindowState, before: Entries, done: seq<string>, entries: Entries, out: seq<Sent>,
                        delivered0: map<string, nat>, delivered: map<string, nat>)
  {
    && entries.Keys == before.Keys
    && (forall id | id in before :: entries[id] == if id in done then Release1(w, id, before[id]) else before[id])
    && out == Wakes(w, before, done)
    && delivered == WakesNoted(w, before, done, delivered0)
  }

  /** The last delivered cursors after waking `ids`. */
  ghost function WakesNoted(w: WindowState, entries: Entries, ids: seq<string>, delivered: map<string, nat>): map<string, nat> {
    if ids == [] then delivered
    else
      var id := ids[|ids| - 1];
      var d := WakesNoted(w, entries, ids[..|ids| - 1], delivered);
      if IsHeld(entries, id) then Noted(d, id, AnswerAt(w, id, entries[id].held.value.request)) else d
  }

  lemma WokenNext(w: WindowState, before: Entries, done: seq<string>, entries: Entries, out: seq<Sent>,
                  d0: map<string, nat>, d: map<string, nat>, id: string)
    requires Woken(w, before, done, entries, out, d0, d) && IsHeld(before, id) && id !in done
    requires AnswerAt(w, id, before[id].held.value.request).Some?
    ensures id in entries && entries[id] == before[id]
    ensures var held := before[id].held.value;
      var r := AnswerAt(w, id, held.request);
      Woken(w, before, done + [id], Marked(entries[id := entries[id].(held := None)], id, r),
            out + CancelOf(Some(held)) + [ReadResponse(r.value)], d0, Noted(d, id, r))
  {
    hide AnswerAt, CancelOf;
    assert (done + [id])[..|done|] == done;
    var held := before[id].held.value;
    var r := AnswerAt(w, id, held.request);
    assert out + CancelOf(Some(held)) + [ReadResponse(r.value)] == out + (CancelOf(Some(held)) + [ReadResponse(r.value)]);
  }

  /** All held reads released. */
  ghost predicate NoneHeld(entries: Entries) { forall id :: !IsHeld(entries, id) }

  lemma WokenAll(w: WindowState, before: Entries, ids: seq<string>, entries: Entries, out: seq<Sent>,
                 d0: map<string, nat>, d: map<string, nat>)
    requires Woken(w, before, ids, entries, out, d0, d) && InCreationOrder(before, ids) && Answerable(w, before)
    ensures NoneHeld(entries) && AtHead(w, entries)
  {
    hide AnswerAt;
  }

  class Node {
    const window: Window
    const sessions: LogSession.Table
    const stopWhen: StopWhen
    var nextTimer: nat
    /** All timer events; the cursor of the last data answer of each stream; and
        whether every eviction so far stayed at or below the least watermark. */
    ghost var timers: seq<TimerEvent>
    ghost var delivered: map<string, nat>
    ghost var safe: bool

    ghost predicate Books()
      reads this, window, sessions
    {
      && window.Valid() && sessions.Valid()
      && Accounts(timers, nextTimer, HeldTable(sessions.entries))
      && Watermarked(window.Value(), sessions.entries, delivered, safe)
    }

    ghost predicate Valid()
      reads this, window, sessions
    {
      Books() && AtHead(window.Value(), sessions.entries)
    }

    constructor (stopWhen: StopWhen)
      ensures Valid() && fresh(window) && fresh(sessions) && safe && delivered == map[]
    {
      window := new Window();
      sessions := new LogSession.Table();
      this.stopWhen := stopWhen;
      nextTimer, timers, delivered, safe := 0, [], map[], true;
      new;
      AccountsEmpty<Request>();
      assert HeldTable(map[]) == map[];
    }

    /** Answers a read of a known stream from the window, if it can be. */
    method Resolve(id: string, q: Request) returns (r: Option<Response>)
      requires Books() && id in sessions.entries
      modifies sessions`entries, `delivered
      ensures Books() && r == AnswerAt(window.Value(), id, q)
      ensures sessions.entries == Marked(old(sessions.entries), id, r) && delivered == Noted(old(delivered), id, r)
      ensures HeldTable(sessions.entries) == HeldTable(old(sessions.entries))
      ensures AtHead(window.Value(), old(sessions.entries)) ==> AtHead(window.Value(), sessions.entries)
    {
      hide AtHead, Dense, Indexed, Accounts, Watermarked, Scan, HeldTable;
      MarkedKeeps(window.Value(), window.history, sessions.entries, delivered, safe, id, q);
      match Classify(window.Value(), q.cursor) {
        case ToData =>
          var records, last := window.ScanFrom(q.cursor, q.limits);
          sessions.SetWatermark(id, last);
          delivered := delivered[id := last];
          r := Some(Response(id, records, last, Data, None));
        case Terminal(state, error) => r := Some(Response(id, [], q.cursor, state, error));
        case ToExpired(next) => r := Some(Response(id, [], next, Expired, None));
        case CaughtUpLive => r := None;
      }
    }

    /** Answers every held read in creation order; none stays parked. */
    method ReleaseHeld() returns (out: seq<Sent>, ghost ids: seq<string>)
      requires Books() && Answerable(window.Value(), sessions.entries)
      modifies sessions, `timers, `delivered
      ensures Valid() && NoneHeld(sessions.entries) && timers == old(timers) + TimerEvents(out)
      ensures InCreationOrder(old(sessions.entries), ids)
      ensures Woken(window.Value(), old(sessions.entries), ids, sessions.entries, out, old(delivered), delivered)
    {
      hide Dense, Indexed, Accounts, Watermarked, HeldTable, AnswerAt, InCreationOrder, Answerable, Woken, NoneHeld, AtHead,
        Cleared, Marked, Noted, CancelOf, TimerEvents;
      ghost var w, before, d0, timers0 := window.Value(), sessions.entries, delivered, timers;
      out := [];
      var order := sessions.HeldInCreationOrder();
      ids := order;
      WokenNone(w, before, d0, timers);
      for i := 0 to |order|
        invariant Books() && window.Value() == w
        invariant Woken(w, before, order[..i], sessions.entries, out, d0, delivered)
        invariant timers == timers0 + TimerEvents(out)
      {
        var id := order[i];
        ghost var t, d, out0 := sessions.Value(), delivered, out;
        NextHeld(w, before, order, i);
        assert order[..i + 1] == order[..i] + [id];
        WokenNext(w, before, order[..i], t.entries, out, d0, d, id);
        ClearedKeeps(w, t, id, delivered, safe);
        HeldTableAt(t.entries, id);
        Release(timers, nextTimer, HeldTable(t.entries), id, HeldTable(t.entries)[id := None], Cancels(t.entries[id].held));
        AnsweredEvents(before[id].held, out, AnswerAt(w, id, before[id].held.value.request).value);
        var held := sessions.ClearHeld(id);
        timers := timers + Cancels(held);
        var response := Resolve(id, held.value.request);
        if response.Some? {
          out := out + CancelOf(held) + [ReadResponse(response.value)];
        } else {
          assert false;
        }
      }
      assert order[..|order|] == order;
      WokenAll(w, before, order, sessions.entries, out, d0, delivered);
    }

    /** A push to a live log wakes every held read with data, in creation order;
        a late one is reported and changes nothing. */
    method OnPush(payload: Bytes) returns (out: seq<Sent>, ghost ids: seq<string>)
      requires Valid()
      modifies window, sessions, `timers, `delivered
      ensures Valid() && timers == old(timers) + TimerEvents(out)
      ensures old(window.lifecycle) != Live ==>
        out == [Diagnostic(PushAfterTerminal)] && window.Value() == old(window.Value()) && window.history == old(window.history)
        && sessions.Value() == old(sessions.Value()) && delivered == old(delivered)
      ensures old(window.lifecycle) == Live ==>
        && window.history == old(window.history) + [payload]
        && NoneHeld(sessions.entries) && InCreationOrder(old(sessions.entries), ids)
        && Woken(window.Value(), old(sessions.entries), ids, sessions.entries, out, old(delivered), delivered)
        && Answerable(window.Value(), old(sessions.entries))
      ensures old(window.lifecycle) == Live ==> GotRecord(window.Value(), old(sessions.entries), payload)
    {
      hide Dense, Indexed, Accounts, Watermarked, HeldTable, AnswerAt, InCreationOrder, Answerable, Woken, NoneHeld, AtHead,
        TimerEvents, GotRecord;
      if window.lifecycle != Live {
        Untimed<Response, Diag>(timers, Diagnostic(PushAfterTerminal));
        return [Diagnostic(PushAfterTerminal)], [];
      }
      ghost var w, history := window.Value(), window.history;
      var seqNo := window.Push(payload);
      PushWakesAll(w, window.Value(), history, payload, sessions.entries, delivered, safe);
      out, ids := ReleaseHeld();
    }

    method OnSeal() returns (out: seq<Sent>, ghost ids: seq<string>)
      requires Valid()
      modifies window`lifecycle, sessions, `timers, `delivered
      ensures Valid() && timers == old(timers) + TimerEvents(out) && NoneHeld(sessions.entries)
      ensures window.lifecycle == if old(window.lifecycle) == Live then Sealed else old(window.lifecycle)
      ensures InCreationOrder(old(sessions.entries), ids) && Answerable(window.Value(), old(sessions.entries))
      ensures Woken(window.Value(), old(sessions.entries), ids, sessions.entries, out, old(delivered), delivered)
    {
      hide Dense, Indexed, Accounts, Watermarked, HeldTable, AnswerAt, InCreationOrder, Answerable, Woken, NoneHeld, AtHead,
        TimerEvents;
      ghost var w := window.Value();
      window.Seal();
      EndWakesAll(w, window.lifecycle, window.history, sessions.entries, delivered, safe);
      out, ids := ReleaseHeld();
    }

    method OnClose(error: Option<Error>) returns (out: seq<Sent>, ghost ids: seq<string>)
      requires Valid()
      modifies window`lifecycle, sessions, `timers, `delivered
      ensures Valid() && timers == old(timers) + TimerEvents(out)
      ensures old(window.lifecycle) !in {Live, Sealed} ==>
        out == [] && window.Value() == old(window.Value()) && sessions.Value() == old(sessions.Value())
      ensures old(window.lifecycle) in {Live, Sealed} ==>
        && window.lifecycle == (if error.None? then Lifecycle.Closed else Lifecycle.Failed(error.value))
        && NoneHeld(sessions.entries) && InCreationOrder(old(sessions.entries), ids)
        && Answerable(window.Value(), old(sessions.entries))
        && out != [] && out[|out| - 1] == ProducerStop(if error.Some? then StopFailed else StopClosed)
        && Woken(window.Value(), old(sessions.entries), ids, sessions.entries, out[..|out| - 1], old(delivered), delivered)
    {
      hide Dense, Indexed, Accounts, Watermarked, HeldTable, AnswerAt, InCreationOrder, Answerable, Woken, NoneHeld, AtHead,
        TimerEvents;
      if window.lifecycle != Live && window.lifecycle != Sealed {
        Untimed<Response, Diag>(timers, Diagnostic(PushAfterTerminal));
        return [], [];
      }
      ghost var w := window.Value();
      window.Close(error);
      EndWakesAll(w, window.lifecycle, window.history, sessions.entries, delivered, safe);
      out, ids := ReleaseHeld();
      var stop := ProducerStop(if error.Some? then StopFailed else StopClosed);
      UntimedAfter(out, stop);
      assert (out + [stop])[..|out|] == out;
      out := out + [stop];
    }

    /** Eviction drops records only; held reads sit above it. */
    method OnEvict(upTo: nat) returns (out: seq<Sent>)
      requires Valid()
      modifies window`records, window`floor, `safe
      ensures Valid() && out == [] && window.history == old(window.history)
      ensures window.floor == if upTo == 0 then old(window.floor)
                              else Max(old(window.floor), Min(upTo, window.head) + 1)
      ensures safe <==> old(safe) && SafeEviction(sessions.entries, upTo)
    {
      hide Dense, Indexed, Accounts, HeldTable, AnswerAt;
      ghost var w := window.Value();
      window.Evict(upTo);
      EvictKeeps(w, window.Value(), upTo, sessions.entries, delivered, safe);
      safe := safe && SafeEviction(sessions.entries, upTo);
      out := [];
    }

    /** A read is answered from the window, probed or parked at the head; it
        never expires at the cursor of its stream's last data answer while
        evictions have been safe. */
    method OnRead(id: string, cursor: Option<nat>, limits: Limits, timeoutMs: Option<nat>) returns (out: seq<Sent>)
      requires Valid()
      modifies sessions, `nextTimer, `timers, `delivered
      ensures Valid() && timers == old(timers) + TimerEvents(out)
      ensures var from := if cursor.None? then 0 else cursor.value;
        && ReadDone(window.Value(), old(sessions.Value()), old(delivered), id, Request(from, limits), timeoutMs,
                    old(nextTimer) + 1, sessions.entries, delivered, out)
        && NeverExpired(window.Value(), old(delivered), safe, id, Request(from, limits))
        && SliceFrom(window.history, from, out)
      ensures cursor.None? && window.floor == 0 ==> forall r | ReadResponse(r) in out :: r.state != Expired
    {
      hide Indexed, Accounts, Watermarked, HeldTable, HeldOf, AtHead, TimerEvents, ReadDone, NeverExpired, SliceFrom, Dense;
      var q := Request(if cursor.None? then 0 else cursor.value, limits);
      ghost var t, d0, token := sessions.Value(), delivered, nextTimer + 1;
      NotExpired(window.Value(), window.history, sessions.entries, delivered, safe, id, q);
      out := ReadAt(id, q, timeoutMs);
      ReadFrom(window.Value(), window.history, t, d0, id, q, timeoutMs, token, sessions.entries, delivered, out);
    }

    /** Supersedes the read held there, then answers the new one or parks it. */
    method ReadAt(id: string, q: Request, timeoutMs: Option<nat>) returns (out: seq<Sent>)
      requires Valid()
      modifies sessions, `nextTimer, `timers, `delivered
      ensures Valid() && timers == old(timers) + TimerEvents(out)
      ensures ReadDone(window.Value(), old(sessions.Value()), old(delivered), id, q, timeoutMs,
                       old(nextTimer) + 1, sessions.entries, delivered, out)
    {
      hide Dense, Indexed, Accounts, Watermarked, HeldTable, HeldOf, AnswerAt, AtHead, TimerEvents, Marked, Noted, Opened, Cleared,
        CancelOf, Parked, Replied, ReadDone;
      ghost var w, t, d0, token := window.Value(), sessions.Value(), delivered, nextTimer + 1;
      SupersededKeeps(w, t, id, timers, nextTimer, delivered, safe);
      sessions.GetOrCreate(id);
      var prior := sessions.ClearHeld(id);
      out := CancelOf(prior);
      timers := timers + TimerEvents(out);
      MarkedStays(sessions.entries, id, AnswerAt(w, id, q));
      var response := Resolve(id, q);
      var answer := Finish(id, q, timeoutMs, response);
      TimerEventsConcat(out, answer);
      out := out + answer;
      ReadShape(w, t, d0, id, q, timeoutMs, token, out);
    }

    /** Sends the response, probes, or parks. */
    method Finish(id: string, q: Request, timeoutMs: Option<nat>, response: Option<Response>) returns (out: seq<Sent>)
      requires Valid() && id in sessions.entries && sessions.entries[id].held.None?
      requires response == AnswerAt(window.Value(), id, q)
      modifies sessions, `nextTimer, `timers
      ensures Valid() && timers == old(timers) + TimerEvents(out)
      ensures var r := Probed(response, id, q, timeoutMs);
        && out == Replied(r, timeoutMs, old(nextTimer) + 1)
        && sessions.entries == WithHeld(old(sessions.entries), id, Parked(r, q, timeoutMs, old(nextTimer) + 1))
    {
      hide Dense, Indexed, Accounts, Watermarked, HeldTable, AtHead, AnswerAt, TimerEvents, Holding;
      ghost var r, t, w := Probed(response, id, q, timeoutMs), sessions.Value(), window.Value();
      WaitsExactly(w, id, q);
      ParkedKeeps(w, t, id, q, r, timeoutMs, nextTimer + 1, timers, delivered, safe);
      timers := timers + TimerEvents<Response, Diag>(Replied(r, timeoutMs, nextTimer + 1));
      if response.Some? {
        out := [ReadResponse(response.value)];
      } else if timeoutMs == Some(0) {
        out := [ReadResponse(Response(id, [], q.cursor, WouldBlock, None))];
      } else if timeoutMs.None? {
        sessions.SetHeld(id, Held(q, None));
        out := [];
      } else {
        nextTimer := nextTimer + 1;
        sessions.SetHeld(id, Held(q, Some(nextTimer)));
        out := [SetTimer(nextTimer, timeoutMs.value)];
      }
    }

    method OnEndStream(id: string) returns (out: seq<Sent>)
      requires Valid()
      modifies sessions, `timers, `delivered
      ensures Valid() && timers == old(timers) + TimerEvents(out)
      ensures sessions.entries == old(sessions.entries) - {id} && delivered == old(delivered) - {id}
      ensures out == EndOutputs(HeldTable(old(sessions.entries)), id, stopWhen)
    {
      hide *;
      EndShape(sessions.entries, id, stopWhen);
      var before := |sessions.entries|;
      var entry := RemoveStream(id);
      out := EndedOutputs(entry, before, |sessions.entries|);
    }

    /** Takes a stream out of the table, with its timer and its cursor. */
    method RemoveStream(id: string) returns (entry: Option<Entry>)
      requires Valid()
      modifies sessions, `timers, `delivered
      ensures Valid()
      ensures entry == if id in old(sessions.entries) then Some(old(sessions.entries)[id]) else None
      ensures sessions.entries == old(sessions.entries) - {id} && delivered == old(delivered) - {id}
      ensures timers == old(timers) + TimerEvents<Response, Diag>(EndOutputs(HeldTable(old(sessions.entries)), id, stopWhen))
    {
      hide Dense, Indexed, Accounts, Watermarked, HeldTable, AtHead, Ended, TimerEvents, EndOutputs;
      ghost var t := sessions.Value();
      EndedKeeps(window.Value(), t, id, timers, nextTimer, delivered, safe, stopWhen);
      entry := sessions.Remove(id);
      delivered := delivered - {id};
      timers := timers + TimerEvents<Response, Diag>(EndOutputs(HeldTable(t.entries), id, stopWhen));
    }

    /** Cancels the timer of the stream that ended; may stop the producer. */
    method EndedOutputs(entry: Option<Entry>, before: nat, after: nat) returns (out: seq<Sent>)
      ensures entry.None? ==> out == []
      ensures entry.Some? ==>
        out == CancelOf(entry.value.held)
          + if stopWhen == LastReader && before >= 1 && after == 0 then [ProducerStop(LastReaderGone)] else []
    {
      out := [];
      if entry.Some? {
        out := CancelOf(entry.value.held);
        assert out + [] == out;
        if stopWhen == LastReader && before >= 1 && after == 0 {
          out := out + [ProducerStop(LastReaderGone)];
        }
      }
    }

    method OnTimerExpired(token: int) returns (out: seq<Sent>)
      requires Valid()
      modifies sessions, `timers
      ensures Valid()
      ensures (forall id :: !WaitsOn(old(sessions.entries), id, token)) ==>
        out == [] && timers == old(timers) && sessions.Value() == old(sessions.Value())
      ensures forall id | WaitsOn(old(sessions.entries), id, token) ::
        && out == [ReadResponse(Response(id, [], window.head, WouldBlock, None))]
        && timers == old(timers) + [TimerFired(token)]
        && sessions.Value() == Cleared(old(sessions.Value()), id)
    {
      hide Dense, Indexed, Accounts, Watermarked, HeldTable, Cleared;
      out := [];
      var found := sessions.FindByTimer(token);
      if found.None? { return; }
      var id := found.value;
      ghost var t := sessions.Value();
      ClearedKeeps(window.Value(), t, id, delivered, safe);
      HeldTableAt(t.entries, id);
      Release(timers, nextTimer, HeldTable(t.entries), id, HeldTable(t.entries)[id := None], [TimerFired(token)]);
      var held := sessions.ClearHeld(id);
      timers := timers + [TimerFired(token)];
      out := [ReadResponse(Response(id, [], held.value.request.cursor, WouldBlock, None))];
    }

    /** The whole interface: the history only grows, and every response answers
        the read just made or one that was held; a data answer is the history
        from that read's position, the longest batch its limits allow, and only
        a read just made can expire. */
    method Handle(input: Input) returns (out: seq<Sent>)
      requires Valid()
      modifies window, sessions, `nextTimer, `timers, `delivered, `safe
      ensures Valid() && old(window.history) <= window.history
      ensures timers == old(timers) + TimerEvents(out)
           || (input.TimerExpired? && timers == old(timers) + [TimerFired(input.token)])
      ensures RepliesOnly(window.Value(), window.history, old(sessions.entries), input, out)
    {
      hide Dense, Indexed, Accounts, Watermarked, HeldTable, AnswerAt, AtHead, TimerEvents, Woken, ReadDone, RepliesOnly, GotRecord,
        NoneHeld, InCreationOrder, NeverExpired, SafeEviction, WaitsOn, EndOutputs, Cleared, Answerable;
      ghost var h, t, d, token := window.history, sessions.Value(), delivered, nextTimer + 1;
      ghost var ids;
      QuietReplies(window.Value(), h, t.entries, input, stopWhen);
      Untimed<Response, Diag>(timers, Diagnostic(PushAfterTerminal));
      match input {
        case Push(payload) =>
          out, ids := OnPush(payload);
          WakesReply(window.Value(), window.history, t.entries, ids, sessions.entries, out, d, delivered, input);
        case Seal =>
          out, ids := OnSeal();
          WakesReply(window.Value(), window.history, t.entries, ids, sessions.entries, out, d, delivered, input);
        case Close(error) =>
          out, ids := OnClose(error);
          if out != [] {
            WakesReply(window.Value(), window.history, t.entries, ids, sessions.entries, out[..|out| - 1], d, delivered, input);
            StopReplies(window.Value(), window.history, t.entries, input, out);
          }
        case Read(id, cursor, limits, timeoutMs) =>
          out := OnRead(id, cursor, limits, timeoutMs);
          ReadReplies(window.Value(), h, t, d, input, token, sessions.entries, delivered, out);
        case EndStream(id) => out := OnEndStream(id);
        case TimerExpired(token) =>
          out := OnTimerExpired(token);
          ExpiredReplies(window.Value(), h, t.entries, input, out);
        case Evict(upTo) => out := OnEvict(upTo);
      }
    }
  }

  datatype Input =
    | Push(payload: Bytes)
    | Seal
    | Close(error: Option<Error>)
    | Read(id: string, cursor: Option<nat>, limits: Limits, timeoutMs: Option<nat>)
    | EndStream(id: string)
    | TimerExpired(token: int)
    | Evict(upTo: nat)

  predicate Asked(held: Entries, input: Input, id: string, q: Request) {
    if input.Read? then id == input.id && q == Request(if input.cursor.None? then 0 else input.cursor.value, input.limits)
    else IsHeld(held, id) && held[id].held.value.request == q
  }

  /** `r` is a right answer to the request `q`. */
  ghost predicate Right(history: seq<Bytes>, input: Input, id: string, q: Request, r: Response) {
    && r.streamId == id
    && (r.state == Data ==>
          q.cursor <= r.nextCursor <= |history| && r.records == Records.Entries(history, q.cursor, r.nextCursor)
          && Fits(q.limits, r.records)
          && (forall m | r.nextCursor < m <= |history| :: !Fits(q.limits, Records.Entries(history, q.cursor, m)))
          && (r.nextCursor > q.cursor <==> q.limits.maxRecords != Some(0)))
    && (r.state != Data ==> r.records == [])
    && (r.state == Expired ==> input.Read?)
  }

  ghost predicate RepliesOnly(w: WindowState, history: seq<Bytes>, held: Entries, input: Input, out: seq<Sent>) {
    forall r | ReadResponse(r) in out :: exists id, q :: Asked(held, input, id, q) && Right(history, input, id, q, r)
  }

  lemma AnswerIsRight(w: WindowState, history: seq<Bytes>, input: Input, id: string, q: Request)
    requires Dense(w, history) && AnswerAt(w, id, q).Some? && (AnswerAt(w, id, q).value.state == Expired ==> input.Read?)
    ensures Right(history, input, id, q, AnswerAt(w, id, q).value)
  {
    if AnswerAt(w, id, q).value.state == Data { DataIsHistory(w, history, id, q); }
  }

  lemma {:induction false} WakesAreRight(w: WindowState, history: seq<Bytes>, held: Entries, ids: seq<string>, input: Input, r: Response)
    requires Dense(w, history) && Answerable(w, held) && !input.Read? && ReadResponse(r) in Wakes(w, held, ids)
    ensures exists id, q :: Asked(held, input, id, q) && Right(history, input, id, q, r)
    decreases |ids|
  {
    var id := ids[|ids| - 1];
    if ReadResponse(r) in Wakes(w, held, ids[..|ids| - 1]) {
      WakesAreRight(w, history, held, ids[..|ids| - 1], input, r);
    } else {
      var q := held[id].held.value.request;
      hide AnswerAt, Right, Dense;
      AnswerIsRight(w, history, input, id, q);
      assert Asked(held, input, id, q) && Right(history, input, id, q, r);
    }
  }

  lemma WakesReply(w: WindowState, history: seq<Bytes>, held: Entries, ids: seq<string>, entries: Entries, out: seq<Sent>,
                   d0: map<string, nat>, d: map<string, nat>, input: Input)
    requires Dense(w, history) && !input.Read?
    ensures Answerable(w, held) && Woken(w, held, ids, entries, out, d0, d) ==> RepliesOnly(w, history, held, input, out)
  {
    hide Dense, Right, Asked, Answerable;
    if Answerable(w, held) && Woken(w, held, ids, entries, out, d0, d) {
      forall r | ReadResponse(r) in out ensures exists id, q :: Asked(held, input, id, q) && Right(history, input, id, q, r) {
        WakesAreRight(w, history, held, ids, input, r);
      }
    }
  }

  lemma StopReplies(w: WindowState, history: seq<Bytes>, held: Entries, input: Input, out: seq<Sent>)
    requires out != []
    ensures RepliesOnly(w, history, held, input, out[..|out| - 1]) && out[|out| - 1].ProducerStop? ==>
      RepliesOnly(w, history, held, input, out)
  {
    hide Right, Asked;
    assert out == out[..|out| - 1] + [out[|out| - 1]];
  }

  lemma QuietReplies(w: WindowState, history: seq<Bytes>, held: Entries, input: Input, stopWhen: StopWhen)
    ensures forall w', h' :: RepliesOnly(w', h', held, input, []) && RepliesOnly(w', h', held, input, [Diagnostic(PushAfterTerminal)])
    ensures forall id, w', h' :: RepliesOnly(w', h', held, input, EndOutputs(HeldTable(held), id, stopWhen))
  {
  }

  lemma ReadReplies(w: WindowState, history: seq<Bytes>, t: TableState, d0: map<string, nat>, input: Input, token: int,
                    entries: Entries, d: map<string, nat>, out: seq<Sent>)
    requires Dense(w, history) && input.Read?
    requires var from := if input.cursor.None? then 0 else input.cursor.value;
      ReadDone(w, t, d0, input.id, Request(from, input.limits), input.timeoutMs, token, entries, d, out)
    ensures RepliesOnly(w, history, t.entries, input, out)
  {
    var id, q := input.id, Request(if input.cursor.None? then 0 else input.cursor.value, input.limits);
    forall r | ReadResponse(r) in out ensures Asked(t.entries, input, id, q) && Right(history, input, id, q, r) {
      hide AnswerAt, Dense;
      if AnswerAt(w, id, q).Some? { AnswerIsRight(w, history, input, id, q); }
    }
  }

  /** Every data answer is the history from one position. */
  ghost predicate SliceFrom(history: seq<Bytes>, from: nat, out: seq<Sent>) {
    forall r | ReadResponse(r) in out && r.state == Data ::
      from <= r.nextCursor <= |history| && r.records == Records.Entries(history, from, r.nextCursor)
  }

  /** A data answer starts at the position asked, and position 0 is readable
      while nothing has been evicted. */
  lemma ReadFrom(w: WindowState, history: seq<Bytes>, t: TableState, d0: map<string, nat>, id: string, q: Request,
                 timeoutMs: Option<nat>, token: int, entries: Entries, d: map<string, nat>, out: seq<Sent>)
    requires Dense(w, history) && ReadDone(w, t, d0, id, q, timeoutMs, token, entries, d, out)
    ensures SliceFrom(history, q.cursor, out)
    ensures q.cursor == 0 && w.floor == 0 ==> forall r | ReadResponse(r) in out :: r.state != Expired
  {
    if AnswerAt(w, id, q).Some? && AnswerAt(w, id, q).value.state == Data { DataIsHistory(w, history, id, q); }
    ExpiredExactly(w, history, id, q);
    hide AnswerAt, Dense;
  }

  lemma ExpiredReplies(w: WindowState, history: seq<Bytes>, held: Entries, input: Input, out: seq<Sent>)
    requires input.TimerExpired? && ((forall id :: !WaitsOn(held, id, input.token)) ==> out == [])
    requires forall id | WaitsOn(held, id, input.token) :: out == [ReadResponse(Response(id, [], w.head, WouldBlock, None))]
    ensures RepliesOnly(w, history, held, input, out)
  {
    forall r | ReadResponse(r) in out ensures exists id, q :: Asked(held, input, id, q) && Right(history, input, id, q, r) {
      var id :| WaitsOn(held, id, input.token);
      assert Asked(held, input, id, held[id].held.value.request) && Right(history, input, id, held[id].held.value.request, r);
    }
  }

  /** Every read that was held is answered with data, the new record unless it
      asked for none. */
  ghost predicate GotRecord(w: WindowState, held: Entries, payload: Bytes) {
    forall id | IsHeld(held, id) ::
      var q := held[id].held.value.request;
      && AnswerAt(w, id, q).Some? && AnswerAt(w, id, q).value.state == Data
      && (q.limits.maxRecords != Some(0) ==> AnswerAt(w, id, q).value.records == [Record(w.head, payload)])
  }

  lemma PushWakesAll(w: WindowState, w': WindowState, history: seq<Bytes>, payload: Bytes, entries: Entries,
                     delivered: map<string, nat>, safe: bool)
    requires Dense(w, history) && AtHead(w, entries) && w.lifecycle == Live && Watermarked(w, entries, delivered, safe)
    requires w' == w.(records := w.records + [Record(w.head + 1, payload)], head := w.head + 1)
    ensures Answerable(w', entries) && GotRecord(w', entries, payload) && Watermarked(w', entries, delivered, safe)
  {
    PushWakes(w, w', history, payload, entries);
  }

  lemma EndWakesAll(w: WindowState, lifecycle: Lifecycle, history: seq<Bytes>, entries: Entries, delivered: map<string, nat>, safe: bool)
    requires Dense(w, history) && AtHead(w, entries) && lifecycle != Live && Watermarked(w, entries, delivered, safe)
    ensures var w' := w.(lifecycle := lifecycle);
      Answerable(w', entries) && Watermarked(w', entries, delivered, safe) && Dense(w', history)
  {
    EndWakes(w, lifecycle, history, entries);
  }

  lemma EvictKeeps(w: WindowState, w': WindowState, upTo: nat, entries: Entries, delivered: map<string, nat>, safe: bool)
    requires Watermarked(w, entries, delivered, safe) && w'.head == w.head && w'.lifecycle == w.lifecycle
    requires w'.floor == if upTo == 0 then w.floor else Max(w.floor, Min(upTo, w.head) + 1)
    ensures Watermarked(w', entries, delivered, safe && SafeEviction(entries, upTo))
    ensures AtHead(w, entries) ==> AtHead(w', entries)
  {
  }

  /** Watermark-safe eviction: the position of a stream's last data answer has
      not been evicted. */
  lemma NotExpired(w: WindowState, history: seq<Bytes>, entries: Entries, delivered: map<string, nat>, safe: bool, id: string, q: Request)
    requires Dense(w, history) && Watermarked(w, entries, delivered, safe)
    ensures NeverExpired(w, delivered, safe, id, q)
  {
    ExpiredExactly(w, history, id, q);
  }

  ghost predicate NeverExpired(w: WindowState, delivered: map<string, nat>, safe: bool, id: string, q: Request) {
    safe && id in delivered && q.cursor == delivered[id] ==>
      AnswerAt(w, id, q).None? || AnswerAt(w, id, q).value.state != Expired
  }

  /** The answer, or that of a probe. */
  function Probed(r: Option<Response>, id: string, q: Request, timeoutMs: Option<nat>): Option<Response> {
    if r.None? && timeoutMs == Some(0) then Some(Response(id, [], q.cursor, WouldBlock, None)) else r
  }

  function WithHeld(entries: Entries, id: string, held: Option<Held<Request>>): Entries {
    if id in entries then entries[id := entries[id].(held := held)] else entries
  }

  /** What a read leaves behind and sends, from the answer the window gives: its
      stream is opened, its earlier read dropped, and the new one answered or
      parked. */
  ghost predicate ReadDone(w: WindowState, t: TableState, delivered0: map<string, nat>, id: string, q: Request,
                           timeoutMs: Option<nat>, token: int, entries: Entries, delivered: map<string, nat>, out: seq<Sent>)
  {
    var r := AnswerAt(w, id, q);
    var answer := Probed(r, id, q, timeoutMs);
    && out == CancelOf(HeldOf(HeldTable(t.entries), id)) + Replied(answer, timeoutMs, token)
    && delivered == Noted(delivered0, id, r)
    && entries == WithHeld(Marked(Cleared(Opened(t, id), id).entries, id, r), id, Parked(answer, q, timeoutMs, token))
  }

  /** A read first opens its stream and drops the read held there. */
  lemma SupersededKeeps(w: WindowState, t: TableState, id: string, timers: seq<TimerEvent>, issued: nat,
                        delivered: map<string, nat>, safe: bool)
    requires Accounts(timers, issued, HeldTable(t.entries)) && Watermarked(w, t.entries, delivered, safe) && AtHead(w, t.entries)
    ensures var t1, t2 := Opened(t, id), Cleared(Opened(t, id), id);
      && id in t1.entries && id in t2.entries && t2.entries[id].held.None?
      && t1.entries[id].held == HeldOf(HeldTable(t.entries), id)
      && Accounts(timers + TimerEvents<Response, Diag>(CancelOf(t1.entries[id].held)), issued, HeldTable(t2.entries))
      && Watermarked(w, t2.entries, delivered, safe) && AtHead(w, t2.entries)
  {
    hide Accounts, Watermarked, AtHead, HeldTable;
    HeldTableAt(t.entries, id);
    OpenedKeeps(w, t, id, delivered, safe);
    ClearedKeeps(w, Opened(t, id), id, delivered, safe);
    SupersedeAccounts<Request, Response, Diag>(HeldTable(t.entries), id, timers, issued);
    assert HeldTable(t.entries)[id := None][id := None] == HeldTable(t.entries)[id := None];
  }

  lemma ReadShape(w: WindowState, t: TableState, delivered: map<string, nat>, id: string, q: Request,
                  timeoutMs: Option<nat>, token: int, out: seq<Sent>)
    requires out == CancelOf(HeldOf(HeldTable(t.entries), id)) + Replied(Probed(AnswerAt(w, id, q), id, q, timeoutMs), timeoutMs, token)
    ensures var r := AnswerAt(w, id, q);
      ReadDone(w, t, delivered, id, q, timeoutMs, token,
               WithHeld(Marked(Cleared(Opened(t, id), id).entries, id, r), id,
                        Parked(Probed(r, id, q, timeoutMs), q, timeoutMs, token)),
               Noted(delivered, id, r), out)
  {
  }

  lemma MarkedStays(entries: Entries, id: string, r: Option<Response>)
    requires id in entries
    ensures id in Marked(entries, id, r) && Marked(entries, id, r)[id].held == entries[id].held
  {
  }

  /** The answer or the parking of an idle stream's read. */
  lemma ParkedKeeps(w: WindowState, t: TableState, id: string, q: Request, r: Option<Response>, timeoutMs: Option<nat>,
                    token: nat, timers: seq<TimerEvent>, delivered: map<string, nat>, safe: bool)
    requires Accounts(timers, token - 1, HeldTable(t.entries)) && Watermarked(w, t.entries, delivered, safe) && AtHead(w, t.entries)
    requires id in t.entries && t.entries[id].held.None?
    requires r.None? ==> w.lifecycle == Live && q.cursor == w.head && timeoutMs != Some(0)
    ensures var held := Parked(r, q, timeoutMs, token);
      var entries := WithHeld(t.entries, id, held);
      && Accounts(timers + TimerEvents<Response, Diag>(Replied(r, timeoutMs, token)), NextToken(r, timeoutMs, token) - 1,
                  HeldTable(entries))
      && Watermarked(w, entries, delivered, safe) && AtHead(w, entries)
      && entries == (if held.Some? then Holding(t, id, held.value).entries else t.entries)
      && (held.Some? && held.value.timer.Some? ==> forall x :: !WaitsOn(t.entries, x, held.value.timer.value))
  {
    HeldTableAt(t.entries, id);
    ParkAccounts<Request, Response, Diag>(HeldTable(t.entries), id, r, q, timeoutMs, token, timers);
    FreshToken(timers, token - 1, t.entries, token);
    hide Accounts, TimerEvents, Replied, NextToken;
    var held := Parked(r, q, timeoutMs, token);
    assert HeldTable(WithHeld(t.entries, id, held)) == HeldTable(t.entries)[id := held];
    assert held.None? ==> t.entries[id := t.entries[id].(held := None)] == t.entries;
  }

  lemma EndedKeeps(w: WindowState, t: TableState, id: string, timers: seq<TimerEvent>, issued: nat,
                   delivered: map<string, nat>, safe: bool, stopWhen: StopWhen)
    requires Watermarked(w, t.entries, delivered, safe) && AtHead(w, t.entries) && Accounts(timers, issued, HeldTable(t.entries))
    ensures var rest := Ended(t, id).entries;
      var out: seq<Sent> := EndOutputs(HeldTable(t.entries), id, stopWhen);
      && rest == t.entries - {id} && Watermarked(w, rest, delivered - {id}, safe) && AtHead(w, rest)
      && Accounts(timers + TimerEvents(out), issued, HeldTable(rest))
  {
    EndShape(t.entries, id, stopWhen);
    EndedWatermarks(w, t.entries, id, delivered, safe);
    EndAccounts<Request, Response, Diag>(HeldTable(t.entries), id, stopWhen, timers, issued);
    hide *;
    EndedIs(t, id);
  }

  lemma EndShape(entries: Entries, id: string, stopWhen: StopWhen)
    ensures HeldTable(entries - {id}) == HeldTable(entries) - {id}
    ensures id !in entries ==> EndOutputs<Request, Response, Diag>(HeldTable(entries), id, stopWhen) == []
    ensures id in entries ==>
      var cancelled: seq<Sent> := CancelOf(entries[id].held);
      var stops := stopWhen == LastReader && |entries| >= 1 && |entries - {id}| == 0;
      EndOutputs(HeldTable(entries), id, stopWhen) == cancelled + if stops then [ProducerStop(LastReaderGone)] else []
  {
    HeldTableAt(entries, id);
    if id in entries {
      assert HeldTable(entries).Keys == entries.Keys;
      assert (entries - {id}).Keys == entries.Keys - {id};
      assert |entries - {id}| == |(entries - {id}).Keys|;
      assert |entries| == |entries.Keys|;
      assert CancelOf<Request, Response, Diag>(entries[id].held) + [] == CancelOf(entries[id].held);
    }
  }

  lemma EndedIs(t: TableState, id: string)
    ensures Ended(t, id).entries == t.entries - {id}
  {
  }

  lemma EndedWatermarks(w: WindowState, entries: Entries, id: string, delivered: map<string, nat>, safe: bool)
    requires Watermarked(w, entries, delivered, safe) && AtHead(w, entries)
    ensures Watermarked(w, entries - {id}, delivered - {id}, safe) && AtHead(w, entries - {id})
  {
  }

  /** The next token is on no held read. */
  lemma FreshToken(timers: seq<TimerEvent>, issued: nat, entries: Entries, token: int)
    requires Accounts(timers, issued, HeldTable(entries)) && token == issued + 1
    ensures forall x :: !WaitsOn(entries, x, token)
  {
    TokensWithin(timers);
    forall x ensures WaitsOn(entries, x, token) ==> Holds(HeldTable(entries), x, token) {
    }
  }

  lemma WokenNone(w: WindowState, before: Entries, d0: map<string, nat>, timers: seq<TimerEvent>)
    ensures Woken(w, before, [], before, [], d0, d0) && timers + TimerEvents<Response, Diag>([]) == timers
  {
  }

  lemma NextHeld(w: WindowState, before: Entries, ids: seq<string>, i: nat)
    requires InCreationOrder(before, ids) && i < |ids| && Answerable(w, before)
    ensures IsHeld(before, ids[i]) && ids[i] !in ids[..i] && AnswerAt(w, ids[i], before[ids[i]].held.value.request).Some?
  {
    assert ids[i] in ids;
    hide AnswerAt;
  }

  lemma HeldTableAt(entries: Entries, id: string)
    ensures id in HeldTable(entries) <==> id in entries
    ensures id in entries ==> HeldTable(entries)[id] == entries[id].held
  {
  }

  lemma AnsweredEvents(held: Option<Held<Request>>, out: seq<Sent>, r: Response)
    ensures TimerEvents(out + CancelOf(held) + [ReadResponse(r)]) == TimerEvents(out) + Cancels(held)
  {
    OneOutput(out + CancelOf(held), ReadResponse(r));
    TimerEventsConcat(out, CancelOf(held));
    CancelEvents<Request, Response, Diag>(held);
  }
}
