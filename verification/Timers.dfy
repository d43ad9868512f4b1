/** The timer discipline shared by the engines that hold reads: tokens are
    issued in order, each is retired at most once, and the live ones are those
    on held reads. */
module Timers {
  import opened Wrappers

  datatype TimerEvent = TimerSet(token: int) | TimerCancelled(token: int) | TimerFired(token: int)

  datatype Ledger = Ledger(issued: nat, live: set<int>)

  /** Accounts for a history of timer events, or None at the first breach. */
  ghost function Replay(events: seq<TimerEvent>): Option<Ledger> {
    if events == [] then Some(Ledger(0, {}))
    else
      match Replay(events[..|events| - 1])
      case None => None
      case Some(l) =>
        var e := events[|events| - 1];
        if e.TimerSet? then
          if e.token == l.issued + 1 then Some(Ledger(l.issued + 1, l.live + {e.token})) else None
        else
          if e.token in l.live then Some(Ledger(l.issued, l.live - {e.token})) else None
  }

  lemma ReplayAppend(events: seq<TimerEvent>, e: TimerEvent)
    ensures Replay(events + [e]) ==
      match Replay(events)
      case None => None
      case Some(l) =>
        if e.TimerSet? then
          if e.token == l.issued + 1 then Some(Ledger(l.issued + 1, l.live + {e.token})) else None
        else
          if e.token in l.live then Some(Ledger(l.issued, l.live - {e.token})) else None
  {
    assert (events + [e])[..|events|] == events;
  }

  ghost function SetsBefore(events: seq<TimerEvent>, i: nat): nat
    requires i <= |events|
  {
    if i == 0 then 0 else SetsBefore(events, i - 1) + if events[i - 1].TimerSet? then 1 else 0
  }

  lemma {:induction false} SetsBeforePrefix(events: seq<TimerEvent>, n: nat, i: nat)
    requires i <= n <= |events|
    ensures SetsBefore(events[..n], i) == SetsBefore(events, i)
  {
    if i > 0 { SetsBeforePrefix(events, n, i - 1); }
  }

  /** The tokens set are 1, 2, 3, ... in order. */
  lemma {:induction false} TokensInOrder(events: seq<TimerEvent>)
    requires Replay(events).Some?
    ensures forall i | 0 <= i < |events| && events[i].TimerSet? :: events[i].token == SetsBefore(events, i) + 1
    ensures Replay(events).value.issued == SetsBefore(events, |events|)
    decreases |events|
  {
    if events != [] {
      var n := |events| - 1;
      var before := events[..n];
      TokensInOrder(before);
      forall i | 0 <= i <= n ensures SetsBefore(before, i) == SetsBefore(events, i) { SetsBeforePrefix(events, n, i); }
      forall i | 0 <= i < |events| && events[i].TimerSet? ensures events[i].token == SetsBefore(events, i) + 1 {
        if i < n { assert before[i] == events[i]; }
      }
    }
  }

  ghost predicate IsSet(events: seq<TimerEvent>, t: int) { TimerSet(t) in events }

  ghost predicate IsRetired(events: seq<TimerEvent>, t: int) { TimerCancelled(t) in events || TimerFired(t) in events }

  /** The live tokens are those set and neither cancelled nor fired, and only
      set tokens are retired. */
  lemma {:induction false} LiveTokens(events: seq<TimerEvent>)
    requires Replay(events).Some?
    ensures forall t :: t in Replay(events).value.live <==> IsSet(events, t) && !IsRetired(events, t)
    ensures forall t | IsRetired(events, t) :: IsSet(events, t)
    decreases |events|
  {
    if events != [] {
      var n := |events| - 1;
      LiveTokens(events[..n]);
      TokensWithin(events[..n]);
      assert events == events[..n] + [events[n]];
      forall t
        ensures IsSet(events, t) <==> IsSet(events[..n], t) || events[n] == TimerSet(t)
        ensures IsRetired(events, t) <==> IsRetired(events[..n], t) || (!events[n].TimerSet? && events[n].token == t)
      {
      }
    }
  }

  /** No token is retired twice: it is cancelled or fired once, never both. */
  lemma {:induction false} RetiredOnce(events: seq<TimerEvent>, i: nat, j: nat)
    requires Replay(events).Some? && i < j < |events| && !events[i].TimerSet? && !events[j].TimerSet?
    ensures events[i].token != events[j].token
    decreases |events|
  {
    var n := |events| - 1;
    var before := events[..n];
    if j < n {
      RetiredOnce(before, i, j);
    } else {
      LiveTokens(before);
      assert before[i] == events[i] && before[i] in before;
      assert IsRetired(before, events[i].token);
    }
  }

  /** No event names a token not yet issued. */
  lemma {:induction false} TokensWithin(events: seq<TimerEvent>)
    requires Replay(events).Some?
    ensures forall e | e in events :: 1 <= e.token <= Replay(events).value.issued
    ensures forall t | t in Replay(events).value.live :: 1 <= t <= Replay(events).value.issued
    decreases |events|
  {
    if events != [] {
      var n := |events| - 1;
      TokensWithin(events[..n]);
      assert events == events[..n] + [events[n]];
    }
  }

  /* ---------- Held reads ---------- */

  datatype Held<+R> = Held(request: R, timer: Option<int>)

  /** The streams, each with its held read if it has one. */
  type Table<R> = map<string, Option<Held<R>>>

  ghost predicate Holds<R(!new)>(t: Table<R>, id: string, token: int) {
    id in t && t[id].Some? && t[id].value.timer == Some(token)
  }

  ghost predicate HoldsLive<R(!new)>(t: Table<R>, live: set<int>) {
    && (forall id, token | Holds(t, id, token) :: token in live)
    && (forall token | token in live :: exists id :: Holds(t, id, token))
    && (forall a, b, token | Holds(t, a, token) && Holds(t, b, token) :: a == b)
  }

  /** The history is accounted for, `issued` tokens were set, and the live ones
      are on held reads, one each. */
  ghost predicate Accounts<R(!new)>(events: seq<TimerEvent>, issued: int, t: Table<R>) {
    && Replay(events).Some?
    && Replay(events).value.issued == issued
    && HoldsLive(t, Replay(events).value.live)
  }

  lemma OnlyHolder<R(!new)>(events: seq<TimerEvent>, issued: int, t: Table<R>, id: string, token: int)
    requires Accounts(events, issued, t) && Holds(t, id, token)
    ensures forall x | Holds(t, x, token) :: x == id
  {
  }

  function Cancels<R>(held: Option<Held<R>>): seq<TimerEvent> {
    if held.Some? && held.value.timer.Some? then [TimerCancelled(held.value.timer.value)] else []
  }

  lemma AccountsEmpty<R(!new)>()
    ensures Accounts<R>([], 0, map[])
  {
  }

  /** The tokens set and not yet retired are exactly those on held reads. */
  lemma HeldAreLive<R(!new)>(events: seq<TimerEvent>, issued: int, t: Table<R>, token: int)
    requires Accounts(events, issued, t)
    ensures (exists id :: Holds(t, id, token)) <==> IsSet(events, token) && !IsRetired(events, token)
  {
    LiveTokens(events);
  }

  lemma SameHolds<R(!new)>(t: Table<R>, t': Table<R>, live: set<int>)
    requires HoldsLive(t, live) && forall i, token :: Holds(t', i, token) <==> Holds(t, i, token)
    ensures HoldsLive(t', live)
  {
    forall token | token in live ensures exists id :: Holds(t', id, token) {
      var id :| Holds(t, id, token);
      assert Holds(t', id, token);
    }
  }

  lemma OpenAccount<R(!new)>(events: seq<TimerEvent>, issued: int, t: Table<R>, id: string)
    requires Accounts(events, issued, t) && id !in t
    ensures Accounts(events, issued, t[id := None])
  {
    SameHolds(t, t[id := None], Replay(events).value.live);
  }

  /** Parking a read under the next token, or under none. */
  lemma ParkTimed<R(!new)>(events: seq<TimerEvent>, issued: int, t: Table<R>, id: string, request: R)
    requires Accounts(events, issued, t) && id in t && t[id].None?
    ensures Accounts(events + [TimerSet(issued + 1)], issued + 1, t[id := Some(Held(request, Some(issued + 1)))])
  {
    ReplayAppend(events, TimerSet(issued + 1));
    TokensWithin(events);
    var t' := t[id := Some(Held(request, Some(issued + 1)))];
    var live := Replay(events).value.live;
    assert forall i, token :: Holds(t', i, token) <==> Holds(t, i, token) || (i == id && token == issued + 1);
    forall token | token in live ensures exists i :: Holds(t', i, token) {
      var i :| Holds(t, i, token);
      assert Holds(t', i, token);
    }
    assert Holds(t', id, issued + 1);
  }

  lemma ParkUntimed<R(!new)>(events: seq<TimerEvent>, issued: int, t: Table<R>, id: string, request: R)
    requires Accounts(events, issued, t) && id in t && t[id].None?
    ensures Accounts(events, issued, t[id := Some(Held(request, None))])
  {
    SameHolds(t, t[id := Some(Held(request, None))], Replay(events).value.live);
  }

  /** Releasing or dropping a held read retires its token. */
  lemma Release<R(!new)>(events: seq<TimerEvent>, issued: int, t: Table<R>, id: string, t': Table<R>, retired: seq<TimerEvent>)
    requires Accounts(events, issued, t) && id in t && (t' == t[id := None] || t' == t - {id})
    requires retired == Cancels(t[id])
          || (t[id].Some? && t[id].value.timer.Some? && retired == [TimerFired(t[id].value.timer.value)])
    ensures Accounts(events + retired, issued, t')
  {
    assert forall i, token :: Holds(t', i, token) <==> Holds(t, i, token) && i != id;
    if retired == [] {
      assert events + retired == events;
      assert forall token :: !Holds(t, id, token);
    } else {
      var token := retired[0].token;
      assert Holds(t, id, token);
      ReplayAppend(events, retired[0]);
      forall k | k in Replay(events).value.live - {token} ensures exists i :: Holds(t', i, k) {
        var i :| Holds(t, i, k);
        assert Holds(t', i, k);
      }
    }
  }
}
