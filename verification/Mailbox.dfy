/** What the engines that hold reads share: their outputs, the streams in
    creation order, and the sweep that answers held reads. */
module Mailbox {
  import opened Wrappers
  import opened Sequences
  import opened Orders
  import opened Timers

  datatype StopWhen = LastReader | ExplicitOnly
  datatype StopReason = LastReaderGone | StopClosed | StopFailed

  datatype Output<+P, +D> =
    | ReadResponse(response: P)
    | SetTimer(token: int, ms: int)
    | CancelTimer(token: int)
    | ProducerStop(reason: StopReason)
    | Diagnostic(diagnostic: D)

  /* ---------- Timer events in the outputs ---------- */

  function TimerEvents<P, D>(out: seq<Output<P, D>>): seq<TimerEvent> {
    if out == [] then []
    else
      var o := out[|out| - 1];
      TimerEvents(out[..|out| - 1])
      + if o.SetTimer? then [TimerSet(o.token)] else if o.CancelTimer? then [TimerCancelled(o.token)] else []
  }

  lemma {:induction false} TimerEventsConcat<P, D>(a: seq<Output<P, D>>, b: seq<Output<P, D>>)
    ensures TimerEvents(a + b) == TimerEvents(a) + TimerEvents(b)
  {
    if b == [] {
      assert a + b == a;
    } else {
      var n := |b| - 1;
      TimerEventsConcat(a, b[..n]);
      assert (a + b)[..|a + b| - 1] == a + b[..n];
    }
  }

  lemma OneOutput<P, D>(out: seq<Output<P, D>>, o: Output<P, D>)
    ensures TimerEvents(out + [o]) == TimerEvents(out)
      + if o.SetTimer? then [TimerSet(o.token)] else if o.CancelTimer? then [TimerCancelled(o.token)] else []
    ensures out == [] ==> out + [o] == [o] && TimerEvents(out) == []
  {
    assert (out + [o])[..|out|] == out;
  }

  lemma Untimed<P, D>(timers: seq<TimerEvent>, o: Output<P, D>)
    requires !o.SetTimer? && !o.CancelTimer?
    ensures timers + TimerEvents([o]) == timers && timers + TimerEvents<P, D>([]) == timers
  {
    OneOutput([], o);
  }

  lemma UntimedAfter<P, D>(out: seq<Output<P, D>>, o: Output<P, D>)
    requires !o.SetTimer? && !o.CancelTimer?
    ensures TimerEvents(out + [o]) == TimerEvents(out)
  {
    OneOutput(out, o);
  }

  /** What is sent when a held read is dropped. */
  function CancelOf<R, P, D>(held: Option<Held<R>>): seq<Output<P, D>> {
    if held.Some? && held.value.timer.Some? then [CancelTimer(held.value.timer.value)] else []
  }

  lemma CancelEvents<R, P, D>(held: Option<Held<R>>)
    ensures TimerEvents<P, D>(CancelOf(held)) == Cancels(held)
  {
    if CancelOf<R, P, D>(held) != [] { OneOutput<P, D>([], CancelOf(held)[0]); }
  }

  function HeldOf<R>(streams: Table<R>, id: string): Option<Held<R>> { if id in streams then streams[id] else None }

  /* ---------- Streams in creation order ---------- */

  /** `order` names every stream once. */
  ghost predicate Lists<T>(order: seq<string>, streams: map<string, T>) {
    && (forall i, j | 0 <= i < j < |order| :: order[i] != order[j])
    && (forall id :: id in order <==> id in streams)
  }

  function Without(order: seq<string>, id: string): (r: seq<string>)
    ensures forall x :: x in r <==> x in order && x != id
    ensures (forall i, j | 0 <= i < j < |order| :: order[i] != order[j]) ==> forall i, j | 0 <= i < j < |r| :: r[i] != r[j]
    ensures id !in order ==> r == order
  {
    if order == [] then []
    else
      assert order == [order[0]] + order[1..];
      assert (forall i, j | 0 <= i < j < |order| :: order[i] != order[j]) ==> order[0] !in order[1..];
      (if order[0] == id then [] else [order[0]]) + Without(order[1..], id)
  }

  lemma ListsMore<T, U>(order: seq<string>, streams: map<string, T>, streams': map<string, U>, id: string)
    requires Lists(order, streams)
    ensures streams'.Keys == streams.Keys ==> Lists(order, streams')
    ensures id !in streams && streams'.Keys == streams.Keys + {id} ==> Lists(order + [id], streams')
    ensures streams'.Keys == streams.Keys - {id} ==> Lists(Without(order, id), streams')
  {
  }

  lemma NotListed<T>(order: seq<string>, streams: map<string, T>, id: string)
    requires Lists(order, streams) && id !in streams
    ensures Without(order, id) == order
  {
  }

  function FirstId(ids: set<string>): (id: string)
    requires ids != {}
    ensures id in ids
  {
    StringOrder();
    Least(StringLess, ids)
  }

  /* ---------- Sweeping the held reads ---------- */

  /** What a stream's held read is answered, None when it has none or it waits. */
  function AnswerTo<R, P>(reply: (string, R) -> Option<P>, id: string, entry: Option<Held<R>>): Option<P> {
    if entry.Some? then reply(id, entry.value.request) else None
  }

  /** What one stream is sent, and how it is left. */
  function Answer<R, P, D>(reply: (string, R) -> Option<P>, id: string, entry: Option<Held<R>>): seq<Output<P, D>> {
    if AnswerTo(reply, id, entry).Some? then CancelOf(entry) + [ReadResponse(AnswerTo(reply, id, entry).value)] else []
  }

  function Rest<R, P>(reply: (string, R) -> Option<P>, id: string, entry: Option<Held<R>>): Option<Held<R>> {
    if AnswerTo(reply, id, entry).Some? then None else entry
  }

  /** The answers of all streams, in creation order. */
  function Answers<R, P, D>(reply: (string, R) -> Option<P>, streams: Table<R>, order: seq<string>): seq<Output<P, D>> {
    if order == [] then []
    else
      var id := order[|order| - 1];
      Answers(reply, streams, order[..|order| - 1]) + Answer(reply, id, HeldOf(streams, id))
  }

  function Released<R, P>(reply: (string, R) -> Option<P>, streams: Table<R>): Table<R> {
    map id | id in streams :: Rest(reply, id, streams[id])
  }

  /** The sweep after the first `i` streams of `order`. */
  ghost predicate Swept<R, P, D>(reply: (string, R) -> Option<P>, before: Table<R>, order: seq<string>, i: nat,
                                 streams: Table<R>, out: seq<Output<P, D>>)
  {
    && i <= |order| && Lists(order, before) && streams.Keys == before.Keys
    && (forall j | 0 <= j < |order| ::
          streams[order[j]] == if j < i then Rest(reply, order[j], before[order[j]]) else before[order[j]])
    && out == Answers(reply, before, order[..i])
  }

  lemma SweptNone<R, P, D>(reply: (string, R) -> Option<P>, before: Table<R>, order: seq<string>)
    requires Lists(order, before)
    ensures Swept<R, P, D>(reply, before, order, 0, before, [])
  {
    assert forall j | 0 <= j < |order| :: order[j] in order;
  }

  lemma SweptEntry<R, P, D>(reply: (string, R) -> Option<P>, before: Table<R>, order: seq<string>, i: nat,
                            streams: Table<R>, out: seq<Output<P, D>>)
    requires Swept(reply, before, order, i, streams, out) && i < |order|
    ensures order[i] in streams && order[i] in before && streams[order[i]] == before[order[i]]
  {
    assert order[i] in order;
  }

  lemma SweptNext<R, P, D>(reply: (string, R) -> Option<P>, before: Table<R>, order: seq<string>, i: nat,
                           streams: Table<R>, out: seq<Output<P, D>>)
    requires Swept(reply, before, order, i, streams, out) && i < |order| && order[i] in streams
    ensures var id, entry := order[i], streams[order[i]];
      Swept(reply, before, order, i + 1, streams[id := Rest(reply, id, entry)], out + Answer(reply, id, entry))
  {
    hide Rest, Answer;
    assert order[..i + 1][..i] == order[..i];
    assert order[i] in order;
  }

  lemma EntryAccounts<R(!new), P, D>(reply: (string, R) -> Option<P>, id: string, streams: Table<R>,
                                     timers: seq<TimerEvent>, issued: int)
    requires Accounts(timers, issued, streams) && id in streams
    ensures Accounts(timers + TimerEvents<P, D>(Answer(reply, id, streams[id])), issued,
                     streams[id := Rest(reply, id, streams[id])])
  {
    hide Accounts;
    var entry := streams[id];
    if AnswerTo(reply, id, entry).Some? {
      OneOutput<P, D>(CancelOf(entry), ReadResponse(AnswerTo(reply, id, entry).value));
      CancelEvents<R, P, D>(entry);
      assert Cancels(entry) + [] == Cancels(entry);
      Release(timers, issued, streams, id, streams[id := None], Cancels(entry));
    } else {
      assert streams[id := entry] == streams && timers + [] == timers;
    }
  }

  /** One stream of the sweep. */
  lemma SweptStep<R(!new), P, D>(reply: (string, R) -> Option<P>, before: Table<R>, order: seq<string>, i: nat,
                                 streams: Table<R>, out: seq<Output<P, D>>, timers: seq<TimerEvent>, issued: int)
    requires Swept(reply, before, order, i, streams, out) && i < |order| && Accounts(timers, issued, streams)
    ensures order[i] in streams
    ensures var id, entry := order[i], streams[order[i]];
      var streams', sent := streams[id := Rest(reply, id, entry)], Answer<R, P, D>(reply, id, entry);
      && Swept(reply, before, order, i + 1, streams', out + sent)
      && Accounts(timers + TimerEvents(sent), issued, streams')
      && TimerEvents(out + sent) == TimerEvents(out) + TimerEvents(sent)
      && (if AnswerTo(reply, id, entry).Some? then
            Rest(reply, id, entry) == None
            && out + sent == out + CancelOf(entry) + [ReadResponse(AnswerTo(reply, id, entry).value)]
          else Rest(reply, id, entry) == entry && sent == [] && out + sent == out && streams' == streams)
  {
    hide Accounts, Answers, AnswerTo, TimerEvents;
    SweptEntry(reply, before, order, i, streams, out);
    SweptNext(reply, before, order, i, streams, out);
    EntryAccounts<R, P, D>(reply, order[i], streams, timers, issued);
    TimerEventsConcat(out, Answer<R, P, D>(reply, order[i], streams[order[i]]));
  }

  lemma SweptAll<R, P, D>(reply: (string, R) -> Option<P>, before: Table<R>, order: seq<string>, streams: Table<R>,
                          out: seq<Output<P, D>>)
    requires Swept(reply, before, order, |order|, streams, out)
    ensures streams == Released(reply, before) && out == Answers(reply, before, order) && Lists(order, streams)
  {
    hide Rest, Answers;
    assert order[..|order|] == order;
    forall id | id in before ensures streams[id] == Rest(reply, id, before[id]) {
      assert id in order;
    }
  }

  /** Every response of a sweep answers a read that was held. */
  lemma {:induction false} AnswersReply<R, P, D>(reply: (string, R) -> Option<P>, streams: Table<R>, order: seq<string>, r: P)
    requires ReadResponse(r) in Answers<R, P, D>(reply, streams, order)
    ensures exists id :: id in order && AnswerTo(reply, id, HeldOf(streams, id)) == Some(r)
    decreases |order|
  {
    var n := |order| - 1;
    var id := order[n];
    if ReadResponse(r) in Answers<R, P, D>(reply, streams, order[..n]) {
      AnswersReply<R, P, D>(reply, streams, order[..n], r);
      var x :| x in order[..n] && AnswerTo(reply, x, HeldOf(streams, x)) == Some(r);
      assert x in order;
    } else {
      assert ReadResponse(r) in Answer<R, P, D>(reply, id, HeldOf(streams, id));
    }
  }

  /* ---------- Ending a stream ---------- */

  function EndOutputs<R, P, D>(streams: Table<R>, id: string, stopWhen: StopWhen): seq<Output<P, D>> {
    if id !in streams then []
    else CancelOf(streams[id]) + if streams.Keys == {id} && stopWhen == LastReader then [ProducerStop(LastReaderGone)] else []
  }

  lemma EndAccounts<R(!new), P, D>(streams: Table<R>, id: string, stopWhen: StopWhen, timers: seq<TimerEvent>, issued: int)
    requires Accounts(timers, issued, streams)
    ensures Accounts(timers + TimerEvents<P, D>(EndOutputs(streams, id, stopWhen)), issued, streams - {id})
  {
    hide Accounts;
    if id in streams {
      var entry := streams[id];
      CancelEvents<R, P, D>(entry);
      OneOutput<P, D>(CancelOf(entry), ProducerStop(LastReaderGone));
      assert Cancels(entry) + [] == Cancels(entry) && CancelOf<R, P, D>(entry) + [] == CancelOf(entry);
      Release(timers, issued, streams, id, streams - {id}, Cancels(entry));
    } else {
      assert streams - {id} == streams && timers + [] == timers;
    }
  }

  lemma LastStream<T>(streams: map<string, T>, id: string)
    requires id in streams
    ensures streams - {id} == map[] <==> streams.Keys == {id}
  {
    var rest := streams - {id};
    assert rest.Keys == streams.Keys - {id};
    assert rest == map[] <==> rest.Keys == {};
    assert streams.Keys - {id} == {} ==> streams.Keys == {id};
  }

  /** A read first opens its stream and drops the read held there. */
  lemma SupersedeAccounts<R(!new), P, D>(streams: Table<R>, id: string, timers: seq<TimerEvent>, issued: int)
    requires Accounts(timers, issued, streams)
    ensures Accounts(timers + TimerEvents<P, D>(CancelOf(HeldOf(streams, id))), issued, streams[id := None])
  {
    hide Accounts;
    CancelEvents<R, P, D>(HeldOf(streams, id));
    if id in streams {
      Release(timers, issued, streams, id, streams[id := None], Cancels(streams[id]));
    } else {
      OpenAccount(timers, issued, streams, id);
      assert timers + [] == timers;
    }
  }

  /** How a read leaves its stream, from its answer: idle, or held under the
      next token if it asked for a timeout. */
  function Parked<R, P>(r: Option<P>, q: R, timeoutMs: Option<int>, token: int): Option<Held<R>> {
    if r.Some? then None else Some(Held(q, if timeoutMs.Some? && timeoutMs.value > 0 then Some(token) else None))
  }

  function Replied<P, D>(r: Option<P>, timeoutMs: Option<int>, token: int): seq<Output<P, D>> {
    if r.Some? then [ReadResponse(r.value)]
    else if timeoutMs.Some? && timeoutMs.value > 0 then [SetTimer(token, timeoutMs.value)]
    else []
  }

  /** The tokens left to give after a read. */
  function NextToken<P>(r: Option<P>, timeoutMs: Option<int>, token: int): int {
    if r.None? && timeoutMs.Some? && timeoutMs.value > 0 then token + 1 else token
  }

  lemma ParkAccounts<R(!new), P, D>(streams: Table<R>, id: string, r: Option<P>, q: R, timeoutMs: Option<int>, token: int,
                                    timers: seq<TimerEvent>)
    requires Accounts(timers, token - 1, streams) && id in streams && streams[id].None?
    ensures Accounts(timers + TimerEvents<P, D>(Replied(r, timeoutMs, token)), NextToken(r, timeoutMs, token) - 1,
                     streams[id := Parked(r, q, timeoutMs, token)])
  {
    hide Accounts;
    if r.Some? {
      OneOutput<P, D>([], ReadResponse(r.value));
      assert streams[id := None] == streams && timers + [] == timers;
    } else if timeoutMs.Some? && timeoutMs.value > 0 {
      OneOutput<P, D>([], SetTimer(token, timeoutMs.value));
      assert TimerEvents<P, D>(Replied(r, timeoutMs, token)) == [TimerSet(token)] && token - 1 + 1 == token;
      ParkTimed(timers, token - 1, streams, id, q);
    } else {
      assert timers + [] == timers;
      ParkUntimed(timers, token - 1, streams, id, q);
    }
  }

  /* ---------- What engines with one held read a stream do alike ---------- */

  function Listed<T>(order: seq<string>, streams: map<string, T>, id: string): seq<string> {
    if id in streams then order else order + [id]
  }

  /** A read answered or parked keeps the books. */
  lemma ReadBooks<R(!new), P, D>(streams: Table<R>, order: seq<string>, id: string, r: Option<P>, q: R, timeoutMs: Option<int>,
                                 token: int, timers: seq<TimerEvent>)
    requires Lists(order, streams) && Accounts(timers, token - 1, streams)
    ensures var streams' := streams[id := Parked(r, q, timeoutMs, token)];
      var out: seq<Output<P, D>> := CancelOf(HeldOf(streams, id)) + Replied(r, timeoutMs, token);
      && Lists(Listed(order, streams, id), streams')
      && Accounts(timers + TimerEvents(out), NextToken(r, timeoutMs, token) - 1, streams')
  {
    hide *;
    var idle, streams' := streams[id := None], streams[id := Parked(r, q, timeoutMs, token)];
    var cancelled: seq<Output<P, D>>, replied: seq<Output<P, D>> := CancelOf(HeldOf(streams, id)), Replied(r, timeoutMs, token);
    SupersedeAccounts<R, P, D>(streams, id, timers, token - 1);
    ParkAccounts<R, P, D>(idle, id, r, q, timeoutMs, token, timers + TimerEvents(cancelled));
    assert idle[id := Parked(r, q, timeoutMs, token)] == streams';
    TimerEventsConcat(cancelled, replied);
    assert timers + TimerEvents(cancelled) + TimerEvents(replied) == timers + (TimerEvents(cancelled) + TimerEvents(replied));
    StillListed(order, streams, streams', id);
  }

  lemma StillListed<T, U>(order: seq<string>, streams: map<string, T>, streams': map<string, U>, id: string)
    requires Lists(order, streams) && streams'.Keys == streams.Keys + {id}
    ensures Lists(Listed(order, streams, id), streams')
  {
    assert id in streams ==> streams'.Keys == streams.Keys;
    ListsMore(order, streams, streams', id);
  }

  /** Creates the stream on first use and drops its held read. */
  method OpenIdle<R, P, D>(streams: Table<R>, order: seq<string>, id: string)
    returns (streams': Table<R>, order': seq<string>, out: seq<Output<P, D>>)
    ensures streams' == streams[id := None] && order' == Listed(order, streams, id) && out == CancelOf(HeldOf(streams, id))
  {
    streams', order' := streams, order;
    if id !in streams' {
      streams' := streams'[id := None];
      order' := order' + [id];
    }
    out := CancelOf(streams'[id]);
    streams' := streams'[id := None];
  }

  /** Sends the answer to an idle stream's read or parks it. */
  method AnswerOrPark<R, P, D>(streams: Table<R>, id: string, r: Option<P>, q: R, timeoutMs: Option<int>, token: int)
    returns (streams': Table<R>, token': int, out: seq<Output<P, D>>)
    requires id in streams && streams[id].None?
    ensures streams' == streams[id := Parked(r, q, timeoutMs, token)] && token' == NextToken(r, timeoutMs, token)
    ensures out == Replied(r, timeoutMs, token)
  {
    streams', token', out := streams, token, [];
    if r.Some? {
      out := [ReadResponse(r.value)];
    } else if timeoutMs.Some? && timeoutMs.value > 0 {
      out := [SetTimer(token', timeoutMs.value)];
      streams' := streams'[id := Some(Held(q, Some(token')))];
      token' := token' + 1;
    } else {
      streams' := streams'[id := Some(Held(q, None))];
    }
  }

  /** Removes a stream, cancels its timer and, with the last one, may stop the
      producer. */
  method RemoveStream<R, P, D>(streams: Table<R>, order: seq<string>, id: string, stopWhen: StopWhen)
    returns (streams': Table<R>, order': seq<string>, out: seq<Output<P, D>>)
    requires Lists(order, streams)
    ensures streams' == streams - {id} && order' == Without(order, id) && out == EndOutputs(streams, id, stopWhen)
  {
    streams', order', out := streams, order, [];
    if id in streams {
      LastStream(streams, id);
      out := CancelOf(streams[id]);
      assert out + [] == out;
      streams' := streams' - {id};
      order' := Without(order', id);
      if streams' == map[] && stopWhen == LastReader { out := out + [ProducerStop(LastReaderGone)]; }
    } else {
      NotListed(order, streams, id);
    }
  }

  /** The stream whose held read waits on `token`. */
  method FindByToken<R(!new)>(streams: Table<R>, token: int) returns (found: Option<string>)
    ensures found.Some? ==> Holds(streams, found.value, token)
    ensures found.None? ==> forall id :: !Holds(streams, id, token)
  {
    var todo := streams.Keys;
    while todo != {}
      invariant todo <= streams.Keys && forall id | id in streams && id !in todo :: !Holds(streams, id, token)
      decreases todo
    {
      var id := FirstId(todo);
      if streams[id].Some? && streams[id].value.timer == Some(token) { return Some(id); }
      todo := todo - {id};
    }
    found := None;
  }

  /** Firing a live token. */
  lemma FireBooks<R(!new)>(streams: Table<R>, order: seq<string>, id: string, token: int, timers: seq<TimerEvent>, issued: int)
    requires Lists(order, streams) && Accounts(timers, issued, streams) && Holds(streams, id, token)
    ensures id in streams && streams[id].Some? && Lists(order, streams[id := None])
    ensures Accounts(timers + [TimerFired(token)], issued, streams[id := None])
    ensures forall x | Holds(streams, x, token) :: x == id
  {
    OnlyHolder(timers, issued, streams, id, token);
    Release(timers, issued, streams, id, streams[id := None], [TimerFired(token)]);
    hide Accounts;
    ListsMore(order, streams, streams[id := None], id);
  }

  /* ---------- What is sent and kept, case by case ---------- */

  /** An answered read leaves its stream idle; one that waits is held with the
      next token and a timer of just its timeout if that is positive, and with
      none otherwise. */
  lemma ParkingIs<R, P, D>(r: Option<P>, q: R, timeoutMs: Option<int>, token: int)
    ensures r.Some? ==>
      Parked(r, q, timeoutMs, token) == None && Replied<P, D>(r, timeoutMs, token) == [ReadResponse(r.value)]
      && NextToken(r, timeoutMs, token) == token
    ensures forall ms | r.None? && timeoutMs == Some(ms) && ms > 0 ::
      Parked(r, q, timeoutMs, token) == Some(Held(q, Some(token))) && Replied<P, D>(r, timeoutMs, token) == [SetTimer(token, ms)]
      && NextToken(r, timeoutMs, token) == token + 1
    ensures r.None? && (timeoutMs == None || timeoutMs.value <= 0) ==>
      Parked(r, q, timeoutMs, token) == Some(Held(q, None)) && Replied<P, D>(r, timeoutMs, token) == []
      && NextToken(r, timeoutMs, token) == token
  {
  }

  /** A new stream comes last; a known one keeps its place. */
  lemma ListedLast<T>(order: seq<string>, streams: map<string, T>, id: string)
    ensures id in streams ==> Listed(order, streams, id) == order
    ensures id !in streams ==> |Listed(order, streams, id)| == |order| + 1 && Listed(order, streams, id)[|order|] == id
    ensures id !in streams ==> forall i | 0 <= i < |order| :: Listed(order, streams, id)[i] == order[i]
  {
  }

  /** Removing a stream closes the gap and keeps all others in their order. */
  lemma {:induction false} WithoutCloses(order: seq<string>, id: string, i: nat)
    requires i < |order| && order[i] == id && forall j, k | 0 <= j < k < |order| :: order[j] != order[k]
    ensures Without(order, id) == order[..i] + order[i + 1..]
    decreases i
  {
    hide Without;
    WithoutFirst(order, id);
    if i > 0 {
      WithoutCloses(order[1..], id, i - 1);
      assert order[0] != order[i];
      CutLater(order, i);
    } else {
      forall j | 0 <= j < |order[1..]| ensures order[1..][j] != id { assert order[0] != order[j + 1]; }
      assert order[..0] + order[1..] == order[1..];
    }
  }

  lemma {:induction false} WithoutFirst(order: seq<string>, id: string)
    requires order != []
    ensures order[0] != id ==> Without(order, id) == [order[0]] + Without(order[1..], id)
    ensures order[0] == id && id !in order[1..] ==> Without(order, id) == order[1..]
  {
    assert [] + Without(order[1..], id) == Without(order[1..], id);
  }

  lemma CutLater(order: seq<string>, i: nat)
    requires 0 < i < |order|
    ensures order[..i] + order[i + 1..] == [order[0]] + (order[1..][..i - 1] + order[1..][i..])
  {
  }

  /** Ending a stream cancels the timer of its held read, if it has one, and
      stops the producer if it was the last and that was asked for. */
  lemma EndingIs<R, P, D>(streams: Table<R>, id: string, stopWhen: StopWhen)
    ensures id !in streams ==> EndOutputs<R, P, D>(streams, id, stopWhen) == []
    ensures id in streams ==> (EndOutputs<R, P, D>(streams, id, stopWhen) ==
      (if streams[id].Some? && streams[id].value.timer.Some? then [CancelTimer(streams[id].value.timer.value)] else [])
      + (if streams.Keys == {id} && stopWhen == LastReader then [ProducerStop(LastReaderGone)] else []))
  {
  }

  /** What a sweep sends one stream: the cancellation of the timer and the
      response, if its held read is answered. */
  ghost predicate SentTo<R, P, D>(reply: (string, R) -> Option<P>, streams: Table<R>, id: string, piece: seq<Output<P, D>>) {
    piece ==
      if id in streams && streams[id].Some? && reply(id, streams[id].value.request).Some? then
        (if streams[id].value.timer.Some? then [CancelTimer(streams[id].value.timer.value)] else [])
        + [ReadResponse(reply(id, streams[id].value.request).value)]
      else []
  }

  lemma AnswerSent<R, P, D>(reply: (string, R) -> Option<P>, streams: Table<R>, id: string)
    ensures SentTo(reply, streams, id, Answer<R, P, D>(reply, id, HeldOf(streams, id)))
  {
  }

  /** It sends that stream by stream, in their order. */
  lemma {:induction false} SweepSends<R, P, D>(reply: (string, R) -> Option<P>, streams: Table<R>, order: seq<string>)
    returns (pieces: seq<seq<Output<P, D>>>)
    ensures |pieces| == |order| && Answers<R, P, D>(reply, streams, order) == Flat(pieces)
    ensures forall i | 0 <= i < |order| :: SentTo(reply, streams, order[i], pieces[i])
    decreases |order|
  {
    hide SentTo, Answer;
    if order == [] {
      pieces := [];
    } else {
      var n := |order| - 1;
      var before := SweepSends<R, P, D>(reply, streams, order[..n]);
      var piece := Answer<R, P, D>(reply, order[n], HeldOf(streams, order[n]));
      AnswerSent<R, P, D>(reply, streams, order[n]);
      FlatMore(before, piece);
      pieces := before + [piece];
      forall i | 0 <= i < |order| ensures SentTo(reply, streams, order[i], pieces[i]) {
        if i < n { assert order[..n][i] == order[i] && SentTo(reply, streams, order[..n][i], before[i]); }
      }
    }
  }

  /** A sweep leaves exactly the reads held that were not answered. */
  lemma SweepLeaves<R, P>(reply: (string, R) -> Option<P>, streams: Table<R>)
    ensures Released(reply, streams).Keys == streams.Keys
    ensures forall id | id in streams ::
      Released(reply, streams)[id]
      == if streams[id].Some? && reply(id, streams[id].value.request).Some? then None else streams[id]
  {
  }
}
