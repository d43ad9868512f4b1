/** The session table with its two indices: held streams by creation rank, and
    held streams by timer token. */
module LogSession {
  import opened Wrappers
  import opened Orders
  import opened Timers
  import opened Records
  import opened LogWindow

  /** What a parked read asked for. */
  datatype Request = Request(cursor: nat, limits: Limits)
  datatype Entry = Entry(created: nat, held: Option<Held<Request>>, watermark: nat)

  datatype TableState = TableState(
    entries: map<string, Entry>,
    nextRank: nat,
    heldOrder: map<nat, string>,
    timerIndex: map<int, string>)

  predicate IsHeld(entries: map<string, Entry>, id: string) { id in entries && entries[id].held.Some? }

  predicate WaitsOn(entries: map<string, Entry>, id: string, token: int) {
    IsHeld(entries, id) && entries[id].held.value.timer == Some(token)
  }

  /** Ranks are distinct and below the next one. */
  ghost predicate Ranked(entries: map<string, Entry>, nextRank: nat) {
    && (forall id | id in entries :: entries[id].created < nextRank)
    && (forall a, b | a in entries && b in entries && entries[a].created == entries[b].created :: a == b)
  }

  /** `heldOrder` is exactly the held streams under their ranks. */
  ghost predicate OrderIndexed(entries: map<string, Entry>, heldOrder: map<nat, string>) {
    && (forall id | IsHeld(entries, id) :: entries[id].created in heldOrder && heldOrder[entries[id].created] == id)
    && (forall rank | rank in heldOrder :: IsHeld(entries, heldOrder[rank]) && entries[heldOrder[rank]].created == rank)
  }

  /** `timerIndex` is exactly the held streams under their tokens. */
  ghost predicate TimerIndexed(entries: map<string, Entry>, timerIndex: map<int, string>) {
    && (forall id, token | WaitsOn(entries, id, token) :: token in timerIndex && timerIndex[token] == id)
    && (forall token | token in timerIndex :: WaitsOn(entries, timerIndex[token], token))
  }

  ghost predicate Indexed(t: TableState) {
    Ranked(t.entries, t.nextRank) && OrderIndexed(t.entries, t.heldOrder) && TimerIndexed(t.entries, t.timerIndex)
  }

  /** An eviction up to a position no stream has yet to pass. */
  predicate SafeEviction(entries: map<string, Entry>, upTo: nat) {
    forall id | id in entries :: upTo <= entries[id].watermark
  }

  function RankOf(entries: map<string, Entry>, id: string): nat { if id in entries then entries[id].created else 0 }

  /** The held streams, each once, in creation order: the held entries filtered
      and sorted by rank. */
  ghost predicate InCreationOrder(entries: map<string, Entry>, ids: seq<string>) {
    && (forall id :: id in ids <==> IsHeld(entries, id))
    && forall i, j | 0 <= i < j < |ids| :: RankOf(entries, ids[i]) < RankOf(entries, ids[j])
  }

  predicate RankLess(a: nat, b: nat) { a < b }

  /** There is only one such order. */
  lemma CreationOrderUnique(entries: map<string, Entry>, nextRank: nat, a: seq<string>, b: seq<string>)
    requires Ranked(entries, nextRank) && InCreationOrder(entries, a) && InCreationOrder(entries, b)
    ensures a == b
  {
    var ra := Ranks(entries, a);
    var rb := Ranks(entries, b);
    RanksOfHeld(entries, a);
    RanksOfHeld(entries, b);
    AscendingUnique(RankLess, ra, rb);
    forall i | 0 <= i < |a| ensures a[i] == b[i] {
      assert ra[i] == rb[i] && a[i] in a && b[i] in b;
    }
  }

  lemma RanksOfHeld(entries: map<string, Entry>, ids: seq<string>)
    requires InCreationOrder(entries, ids)
    ensures forall r :: r in Ranks(entries, ids) <==> exists id :: IsHeld(entries, id) && entries[id].created == r
    ensures Ascending(RankLess, Ranks(entries, ids))
  {
    var ranks := Ranks(entries, ids);
    forall r ensures r in ranks <==> exists id :: IsHeld(entries, id) && entries[id].created == r {
      if r in ranks {
        var i :| 0 <= i < |ranks| && ranks[i] == r;
        assert ids[i] in ids;
      }
      if id :| IsHeld(entries, id) && entries[id].created == r {
        assert id in ids;
        var i :| 0 <= i < |ids| && ids[i] == id;
        assert ranks[i] == r;
      }
    }
    forall i, j | 0 <= i < j < |ranks| ensures RankLess(ranks[i], ranks[j]) {
      assert ids[i] in ids && ids[j] in ids;
    }
  }

  ghost function Ranks(entries: map<string, Entry>, ids: seq<string>): (r: seq<nat>)
    requires forall id | id in ids :: id in entries
    ensures |r| == |ids| && forall i | 0 <= i < |ids| :: r[i] == entries[ids[i]].created
  {
    seq(|ids|, i requires 0 <= i < |ids| => assert ids[i] in ids; entries[ids[i]].created)
  }

  /* ---------- The transitions keep the indices ---------- */

  function Opened(t: TableState, id: string): TableState {
    if id in t.entries then t
    else t.(entries := t.entries[id := Entry(t.nextRank, None, 0)], nextRank := t.nextRank + 1)
  }

  lemma OpenedIndexed(t: TableState, id: string)
    requires Indexed(t)
    ensures Indexed(Opened(t, id))
  {
    OpenedRanks(t, id);
    var u := Opened(t, id);
    SameHeld(t.entries, u.entries, t.heldOrder, t.timerIndex);
    hide Ranked, OrderIndexed, TimerIndexed;
  }

  lemma OpenedRanks(t: TableState, id: string)
    requires Ranked(t.entries, t.nextRank)
    ensures Ranked(Opened(t, id).entries, Opened(t, id).nextRank)
    ensures forall x :: IsHeld(Opened(t, id).entries, x) <==> IsHeld(t.entries, x)
    ensures forall x | IsHeld(t.entries, x) :: Opened(t, id).entries[x] == t.entries[x]
  {
  }

  /** The indices depend only on the held reads and their ranks. */
  lemma SameHeld(a: map<string, Entry>, b: map<string, Entry>, heldOrder: map<nat, string>, timerIndex: map<int, string>)
    requires forall x :: IsHeld(b, x) <==> IsHeld(a, x)
    requires forall x | IsHeld(a, x) && x in b :: b[x].created == a[x].created && b[x].held == a[x].held
    ensures OrderIndexed(a, heldOrder) ==> OrderIndexed(b, heldOrder)
    ensures TimerIndexed(a, timerIndex) ==> TimerIndexed(b, timerIndex)
  {
    assert forall x, token :: WaitsOn(b, x, token) <==> WaitsOn(a, x, token);
  }

  function Holding(t: TableState, id: string, held: Held<Request>): TableState
    requires id in t.entries
  {
    var e := t.entries[id];
    t.(entries := t.entries[id := e.(held := Some(held))],
       heldOrder := t.heldOrder[e.created := id],
       timerIndex := if held.timer.Some? then t.timerIndex[held.timer.value := id] else t.timerIndex)
  }

  lemma HoldingIndexed(t: TableState, id: string, held: Held<Request>)
    requires Indexed(t) && id in t.entries && t.entries[id].held.None?
    requires held.timer.Some? ==> forall x :: !WaitsOn(t.entries, x, held.timer.value)
    ensures Indexed(Holding(t, id, held))
  {
    HoldingOrder(t, id, held);
    HoldingTimers(t, id, held);
    hide OrderIndexed, TimerIndexed;
  }

  lemma HoldingOrder(t: TableState, id: string, held: Held<Request>)
    requires Ranked(t.entries, t.nextRank) && OrderIndexed(t.entries, t.heldOrder) && id in t.entries && t.entries[id].held.None?
    ensures OrderIndexed(Holding(t, id, held).entries, Holding(t, id, held).heldOrder)
  {
    var u := Holding(t, id, held);
    assert forall x :: IsHeld(u.entries, x) <==> IsHeld(t.entries, x) || x == id;
  }

  lemma HoldingTimers(t: TableState, id: string, held: Held<Request>)
    requires TimerIndexed(t.entries, t.timerIndex) && id in t.entries && t.entries[id].held.None?
    requires held.timer.Some? ==> forall x :: !WaitsOn(t.entries, x, held.timer.value)
    ensures TimerIndexed(Holding(t, id, held).entries, Holding(t, id, held).timerIndex)
  {
    var u := Holding(t, id, held);
    assert forall x, token :: WaitsOn(u.entries, x, token) <==> WaitsOn(t.entries, x, token) || (x == id && held.timer == Some(token));
  }

  function Cleared(t: TableState, id: string): TableState {
    if !IsHeld(t.entries, id) then t
    else
      var e := t.entries[id];
      t.(entries := t.entries[id := e.(held := None)],
         heldOrder := t.heldOrder - {e.created},
         timerIndex := if e.held.value.timer.Some? then t.timerIndex - {e.held.value.timer.value} else t.timerIndex)
  }

  lemma ClearedOrder(t: TableState, id: string)
    requires Indexed(t) && IsHeld(t.entries, id)
    ensures OrderIndexed(Cleared(t, id).entries, Cleared(t, id).heldOrder)
  {
    hide TimerIndexed;
    var u := Cleared(t, id);
    assert forall x :: IsHeld(u.entries, x) <==> IsHeld(t.entries, x) && x != id;
  }

  lemma ClearedTimers(t: TableState, id: string)
    requires Indexed(t) && IsHeld(t.entries, id)
    ensures TimerIndexed(Cleared(t, id).entries, Cleared(t, id).timerIndex)
  {
    hide OrderIndexed, Ranked;
    var u := Cleared(t, id);
    assert forall x, token :: WaitsOn(u.entries, x, token) <==> WaitsOn(t.entries, x, token) && x != id;
    var timer := t.entries[id].held.value.timer;
    assert timer.Some? ==> WaitsOn(t.entries, id, timer.value);
    forall token | token in u.timerIndex ensures WaitsOn(u.entries, u.timerIndex[token], token) {
      assert WaitsOn(t.entries, t.timerIndex[token], token);
    }
  }

  lemma ClearedIndexed(t: TableState, id: string)
    requires Indexed(t)
    ensures Indexed(Cleared(t, id))
  {
    if IsHeld(t.entries, id) {
      ClearedOrder(t, id);
      ClearedTimers(t, id);
      hide OrderIndexed, TimerIndexed;
    }
  }

  function Ended(t: TableState, id: string): TableState {
    Cleared(t, id).(entries := t.entries - {id})
  }

  lemma EndedIndexed(t: TableState, id: string)
    requires Indexed(t)
    ensures Indexed(Ended(t, id))
  {
    ClearedIndexed(t, id);
    var u, v := Cleared(t, id), Ended(t, id);
    assert forall x :: IsHeld(v.entries, x) <==> IsHeld(u.entries, x);
    assert forall x, token :: WaitsOn(v.entries, x, token) <==> WaitsOn(u.entries, x, token);
  }

  lemma MarkedIndexed(t: TableState, id: string, watermark: nat)
    requires Indexed(t) && id in t.entries
    ensures Indexed(t.(entries := t.entries[id := t.entries[id].(watermark := watermark)]))
  {
    SameHeld(t.entries, t.entries[id := t.entries[id].(watermark := watermark)], t.heldOrder, t.timerIndex);
    hide OrderIndexed, TimerIndexed;
  }

  class Table {
    var entries: map<string, Entry>
    var nextRank: nat
    var heldOrder: map<nat, string>
    var timerIndex: map<int, string>

    function Value(): TableState
      reads this
    {
      TableState(entries, nextRank, heldOrder, timerIndex)
    }

    ghost predicate Valid()
      reads this
    {
      Indexed(Value())
    }

    constructor ()
      ensures Valid() && Value() == TableState(map[], 0, map[], map[])
    {
      entries, nextRank, heldOrder, timerIndex := map[], 0, map[], map[];
    }

    method GetOrCreate(id: string)
      requires Valid()
      modifies this
      ensures Valid() && Value() == Opened(old(Value()), id)
    {
      OpenedIndexed(Value(), id);
      if id !in entries {
        var created := nextRank;
        nextRank := nextRank + 1;
        entries := entries[id := Entry(created, None, 0)];
      }
    }

    method Remove(id: string) returns (r: Option<Entry>)
      requires Valid()
      modifies this
      ensures Valid() && Value() == Ended(old(Value()), id)
      ensures r == if id in old(entries) then Some(old(entries)[id]) else None
    {
      EndedIndexed(Value(), id);
      if id !in entries {
        assert entries - {id} == entries;
        return None;
      }
      var entry := entries[id];
      entries := entries - {id};
      if entry.held.Some? {
        heldOrder := heldOrder - {entry.created};
        if entry.held.value.timer.Some? { timerIndex := timerIndex - {entry.held.value.timer.value}; }
      }
      r := Some(entry);
    }

    /** The least watermark, None without streams. */
    method MinWatermark() returns (r: Option<nat>)
      ensures r.None? <==> entries == map[]
      ensures forall upTo: nat :: SafeEviction(entries, upTo) <==> r.None? || upTo <= r.value
    {
      r := None;
      var todo := entries.Keys;
      while todo != {}
        invariant todo <= entries.Keys && (r.None? <==> todo == entries.Keys)
        invariant r.Some? ==> forall id | id in entries && id !in todo :: r.value <= entries[id].watermark
        invariant r.Some? ==> exists id :: id in entries && entries[id].watermark == r.value
        decreases todo
      {
        StringOrder();
        var id := Least(StringLess, todo);
        hide *;
        if r.None? || entries[id].watermark < r.value { r := Some(entries[id].watermark); }
        todo := todo - {id};
      }
      assert entries.Keys == {} <==> entries == map[];
    }

    method SetHeld(id: string, held: Held<Request>)
      requires Valid() && id in entries && entries[id].held.None?
      requires held.timer.Some? ==> forall x :: !WaitsOn(entries, x, held.timer.value)
      modifies this
      ensures Valid() && Value() == Holding(old(Value()), id, held)
    {
      HoldingIndexed(Value(), id, held);
      var created := entries[id].created;
      if held.timer.Some? { timerIndex := timerIndex[held.timer.value := id]; }
      heldOrder := heldOrder[created := id];
      entries := entries[id := entries[id].(held := Some(held))];
    }

    method ClearHeld(id: string) returns (r: Option<Held<Request>>)
      requires Valid()
      modifies this
      ensures Valid() && Value() == Cleared(old(Value()), id)
      ensures r == if id in old(entries) then old(entries)[id].held else None
    {
      ClearedIndexed(Value(), id);
      if id !in entries || entries[id].held.None? { return None; }
      var created, held := entries[id].created, entries[id].held.value;
      entries := entries[id := entries[id].(held := None)];
      heldOrder := heldOrder - {created};
      if held.timer.Some? { timerIndex := timerIndex - {held.timer.value}; }
      r := Some(held);
    }

    method SetWatermark(id: string, watermark: nat)
      requires Valid() && id in entries
      modifies `entries
      ensures Valid() && Value() == old(Value()).(entries := old(entries)[id := old(entries)[id].(watermark := watermark)])
    {
      MarkedIndexed(Value(), id, watermark);
      entries := entries[id := entries[id].(watermark := watermark)];
    }

    /** The values of `heldOrder` in key order: filter-then-sort of the table. */
    method HeldInCreationOrder() returns (ids: seq<string>)
      requires Valid()
      ensures InCreationOrder(entries, ids)
    {
      assert StrictTotal(RankLess);
      var index := heldOrder;
      var ranks := Sorted(RankLess, index.Keys);
      hide OrderIndexed, TimerIndexed, Ranked;
      ids := seq(|ranks|, i requires 0 <= i < |ranks| => assert ranks[i] in ranks; index[ranks[i]]);
      OrderedIds(entries, index, ranks, ids);
    }

    /** The index finds what a scan of the table would. */
    method FindByTimer(token: int) returns (r: Option<string>)
      requires Valid()
      ensures r.Some? ==> WaitsOn(entries, r.value, token) && forall x | WaitsOn(entries, x, token) :: x == r.value
      ensures r.None? ==> forall x :: !WaitsOn(entries, x, token)
    {
      r := if token in timerIndex then Some(timerIndex[token]) else None;
    }
  }

  lemma OrderedIds(entries: map<string, Entry>, heldOrder: map<nat, string>, ranks: seq<nat>, ids: seq<string>)
    requires OrderIndexed(entries, heldOrder) && Ascending(RankLess, ranks) && forall r :: r in ranks <==> r in heldOrder
    requires |ids| == |ranks| && forall i | 0 <= i < |ids| :: ranks[i] in heldOrder && ids[i] == heldOrder[ranks[i]]
    ensures InCreationOrder(entries, ids)
  {
    forall id ensures id in ids <==> IsHeld(entries, id) {
      if IsHeld(entries, id) {
        var rank := entries[id].created;
        assert rank in ranks;
        var i :| 0 <= i < |ranks| && ranks[i] == rank;
        assert ids[i] == id;
      }
    }
    forall i, j | 0 <= i < j < |ids| ensures RankOf(entries, ids[i]) < RankOf(entries, ids[j]) {
      assert RankLess(ranks[i], ranks[j]);
    }
  }
}
