/** Rebuilding a replica from a read, and bringing a live one up to date. */
module CrdtCatchUp {
  import opened Wrappers
  import opened Orders
  import opened CrdtClock
  import opened CrdtSpec
  import opened CrdtRuns
  import opened CrdtConvergence

  /* ---------- Listings ---------- */

  lemma {:induction false} CollectElements(ops: map<Key, Op>, keys: seq<Key>)
    requires forall k | k in keys :: k in ops
    ensures |Collect(ops, keys)| == |keys|
    ensures forall op :: op in Collect(ops, keys) <==> exists k :: k in keys && ops[k] == op
    decreases |keys|
  {
    if keys != [] {
      CollectElements(ops, keys[1..]);
      assert keys == [keys[0]] + keys[1..];
    }
  }

  lemma {:induction false} CollectAgrees(a: map<Key, Op>, b: map<Key, Op>, keys: seq<Key>)
    requires forall k | k in keys :: k in a && k in b && a[k] == b[k]
    ensures Collect(a, keys) == Collect(b, keys)
    decreases |keys|
  {
    if keys != [] {
      assert keys[0] in keys;
      CollectAgrees(a, b, keys[1..]);
    }
  }

  lemma ListingElements(s: State, keys: set<Key>)
    requires keys <= s.ops.Keys
    ensures |Listing(s, keys)| == |keys|
    ensures forall op :: op in Listing(s, keys) <==> exists k :: k in keys && s.ops[k] == op
  {
    KeyOrder();
    CollectElements(s.ops, Sorted(KeyLess, keys));
  }

  lemma ListingAgrees(s: State, t: State, keys: set<Key>)
    requires forall k | k in keys :: k in s.ops && k in t.ops && s.ops[k] == t.ops[k]
    ensures Listing(s, keys) == Listing(t, keys)
  {
    KeyOrder();
    CollectAgrees(s.ops, t.ops, Sorted(KeyLess, keys));
  }

  /* ---------- Room ---------- */

  lemma RoomAfterApply(s: State, seen: set<Op>, op: Op, t: State)
    requires Inv(s, seen) && Applied(s, op, t)
    ensures Pending(t) <= Pending(s) + 1
  {
    ApplyKeepsInv(s, seen, op, t);
    CardinalityMonotone(s.integrated, t.integrated);
  }

  /** With room for all of `ops` none of them is refused. */
  lemma {:induction false} RoomSuffices(tr: seq<State>, ops: seq<Op>, seen: set<Op>)
    requires Delivers(tr, ops) && Inv(tr[0], seen) && !tr[0].sealed && !tr[0].closed
    requires Pending(tr[0]) + |ops| <= tr[0].maxPending
    ensures NoneRefused(tr, ops) && Pending(Last(tr)) <= Pending(tr[0]) + |ops|
    decreases |ops|
  {
    hide Inv, Applied, ApplyOutputs, Valid;
    if ops != [] {
      var n := |ops| - 1;
      DeliveryPrefix(tr, ops, n);
      RoomSuffices(tr[..n + 1], ops[..n], seen);
      DeliveryExtendsSeen(tr[..n + 1], ops[..n], seen);
      assert Last(tr[..n + 1]) == tr[n] && Applied(tr[n], ops[n], tr[n + 1]);
      RoomAfterApply(tr[n], seen + Counted(tr[0].floor, ops[..n]), ops[n], tr[n + 1]);
      RoomNotRefused(tr[n], ops[n]);
      forall i | 0 <= i < |ops| ensures Diagnose(PendingBoundExceeded, Some(ops[i])) !in ApplyOutputs(tr[i], ops[i]) {
        if i < n {
          assert Diagnose(PendingBoundExceeded, Some(ops[..n][i])) !in ApplyOutputs(tr[..n + 1][i], ops[..n][i]);
        }
      }
    }
  }

  lemma RoomNotRefused(s: State, op: Op)
    requires Pending(s) < s.maxPending
    ensures Diagnose(PendingBoundExceeded, Some(op)) !in ApplyOutputs(s, op)
  {
  }

  /* ---------- Reading ---------- */

  lemma FullRead(s: State, seen: set<Op>, q: ReadRequest)
    requires Inv(s, seen) && q.cursor.None?
    ensures ReadOf(s, q).ops == Operations(s) && ReadOf(s, q).bootstrap == s.bootstrap
    ensures ReadOf(s, q).nextCursor == ClockValue(s.clock)
  {
    hide Listing, ClockValue, StoresWinners, MarksEquivocations, Forced, ClosedOver, FloorIsBootstrap;
    forall k | k in s.integrated ensures k.seqNo > At(map[], k.origin) {
      assert Key(k.origin, k.seqNo) in s.integrated;
    }
    assert Above(s, map[]) == s.integrated;
  }

  /** The answer at a position the source covers, above the floor. */
  lemma ReadInRange(s: State, q: ReadRequest, cursor: map<string, int>)
    requires q.cursor.Some?
    requires forall o | o in cursor :: cursor[o] <= At(s.clock, o)
    requires forall o | o in s.floor :: s.floor[o] <= At(cursor, o)
    ensures var r := ReadAt(s, q, cursor);
      && r.ops == Listing(s, Above(s, cursor)) && r.bootstrap == None && r.nextCursor == ClockValue(s.clock)
      && r.state in {Data, Empty, Eof, ReadState.Closed, Failed}
      && (r.state == Data <==> r.ops != [])
  {
    hide Listing, Above, ClockValue;
  }

  lemma IncrementalRead(s: State, q: ReadRequest, clock: map<string, int>)
    requires q.cursor == Some(ClockValue(clock)) && Positive(clock)
    requires Below(s.floor, clock) && Below(clock, s.clock)
    ensures var r := ReadOf(s, q);
      && r.ops == Listing(s, Above(s, clock)) && r.bootstrap == None && r.nextCursor == ClockValue(s.clock)
      && r.state in {Data, Empty, Eof, ReadState.Closed, Failed}
      && (r.state == Data <==> r.ops != [])
  {
    hide ReadAt, Listing, Above, ClockValue, ParseClock;
    ClockValueParses(clock);
    forall o | o in clock ensures clock[o] <= At(s.clock, o) { assert At(clock, o) <= At(s.clock, o); }
    forall o | o in s.floor ensures s.floor[o] <= At(clock, o) { assert At(s.floor, o) <= At(clock, o); }
    ReadInRange(s, q, clock);
  }

  lemma InvClock(s: State, seen: set<Op>)
    requires Inv(s, seen)
    ensures Positive(s.clock) && Positive(s.floor) && Below(s.floor, s.clock)
    ensures ClockMatches(s.floor, s.clock, s.integrated) && s.integrated <= s.ops.Keys
  {
  }

  /* ---------- Rebuilding ---------- */

  lemma ReplicaSeesListing(s: State, seen: set<Op>, keys: set<Key>)
    requires Inv(s, seen) && keys <= s.integrated
    ensures Counted(s.floor, Listing(s, keys)) == set k | k in keys :: s.ops[k]
  {
    ListingElements(s, keys);
    forall k | k in keys ensures Valid(s.ops[k]) && s.ops[k].seqNo > At(s.floor, s.ops[k].origin) {
      assert s.ops[k] in seen;
    }
  }

  /** The replica integrates the least fixpoint of what the source stores. */
  lemma RebuiltIntegrated(src: State, seen: set<Op>, rep: State, sent: set<Op>, S: set<Key>)
    requires Inv(src, seen) && Inv(rep, sent) && rep.floor == src.floor
    requires src.integrated <= src.ops.Keys && sent == set k | k in src.integrated :: src.ops[k]
    requires LeastOver(src.floor, src.ops, {}, S)
    ensures rep.integrated == S
    ensures forall k | k in src.integrated :: k in rep.ops && rep.ops[k] == src.ops[k]
  {
    hide Valid, VariantLess, MarksEquivocations, FloorIsBootstrap, ClockMatches, Prerequisites;
    forall k | k in src.integrated ensures k in rep.ops && rep.ops[k] == src.ops[k] {
      assert src.ops[k] in sent && KeyOf(src.ops[k]) == k;
      assert rep.ops[k] in sent;
    }
    assert ForcedOver(src.floor, src.ops, {}, S);
    forall k | k in src.ops && Prerequisites(src.floor, src.ops[k]) <= rep.integrated * src.integrated
      ensures k in rep.integrated * src.integrated
    {
      assert k in src.integrated;
    }
    assert S <= rep.integrated;
    forall op | op in sent && Prerequisites(src.floor, op) <= S ensures KeyOf(op) in S {
      var k :| k in src.integrated && src.ops[k] == op;
    }
    assert ClosedUnder(rep.floor, sent, S);
  }

  /** A fresh replica that installs the bootstrap of a cursor-less read and
      applies its operations in the order sent has the source's clock and
      operations exactly when the source integrated nothing but the least
      fixpoint of the operations it stores. */
  lemma BootstrapReconstruction(src: State, seen: set<Op>, q: ReadRequest, tr: seq<State>)
    requires Inv(src, seen) && q.cursor.None?
    requires tr != [] && tr[0] == Start(tr[0].maxPending, ReadOf(src, q).bootstrap)
    requires Delivers(tr, ReadOf(src, q).ops) && |ReadOf(src, q).ops| <= tr[0].maxPending
    ensures NoneRefused(tr, ReadOf(src, q).ops)
    ensures Last(tr).clock == src.clock && Operations(Last(tr)) == Operations(src)
       <==> LeastOver(src.floor, src.ops, {}, src.integrated)
  {
    hide Inv, Applied, ApplyOutputs, ReadOf, Counted, Operations, LeastOver, Start, NoneRefused, Listing;
    FullRead(src, seen, q);
    StartInv(tr[0].maxPending, src.bootstrap);
    RoomSuffices(tr, ReadOf(src, q).ops, {});
    DeliveryExtendsSeen(tr, ReadOf(src, q).ops, {});
    StartFloor(src, seen, tr[0].maxPending);
    InvClock(src, seen);
    ReplicaSeesListing(src, seen, src.integrated);
    assert Operations(src) == Listing(src, src.integrated) by { OperationsListed(src); }
    assert {} + Counted(src.floor, Operations(src)) == Counted(src.floor, Operations(src));
    var S := LeastOverExists(src, seen);
    RebuiltIntegrated(src, seen, Last(tr), Counted(src.floor, Operations(src)), S);
    RebuiltAgrees(src, seen, Last(tr), Counted(src.floor, Operations(src)), S);
  }

  lemma OperationsListed(s: State)
    ensures Operations(s) == Listing(s, s.integrated)
  {
    hide Listing;
  }

  lemma StartFloor(s: State, seen: set<Op>, maxPending: nat)
    requires Inv(s, seen)
    ensures Start(maxPending, s.bootstrap).floor == s.floor
  {
  }

  lemma LeastOverExists(s: State, seen: set<Op>) returns (S: set<Key>)
    requires Inv(s, seen)
    ensures LeastOver(s.floor, s.ops, {}, S)
  {
    S := WinnersClosureExists(s.floor, seen);
    forall T: set<Key> ensures ClosedOver(s.floor, s.ops, T) <==> ClosedUnder(s.floor, Winners(seen), T) {
      ClosedOverWinners(s, seen, T);
    }
  }

  lemma RebuiltAgrees(src: State, seen: set<Op>, rep: State, sent: set<Op>, S: set<Key>)
    requires Inv(src, seen) && Inv(rep, sent) && rep.floor == src.floor && rep.integrated == S
    requires LeastOver(src.floor, src.ops, {}, S)
    requires forall k | k in src.integrated :: k in rep.ops && rep.ops[k] == src.ops[k]
    ensures rep.clock == src.clock && Operations(rep) == Operations(src) <==> LeastOver(src.floor, src.ops, {}, src.integrated)
  {
    if rep.clock == src.clock {
      ClockMonotone(src.floor, src.clock, src.integrated, rep.clock, S);
      ClockMonotone(src.floor, rep.clock, S, src.clock, src.integrated);
      assert src.integrated == S;
    }
    if LeastOver(src.floor, src.ops, {}, src.integrated) {
      LeastUnique(src.floor, src.ops, {}, S, src.integrated);
      ClockDetermined(src.floor, src.clock, rep.clock, S);
      ListingAgrees(src, rep, S);
    }
  }

  /** Sources whose operations are settled meet the condition. */
  lemma SettledSourceIsLeast(src: State, seen: set<Op>)
    requires Inv(src, seen) && Settled(src.floor, seen)
    ensures LeastOver(src.floor, src.ops, {}, src.integrated)
  {
    var S := WinnersClosureExists(src.floor, seen);
    SettledIntegrates(src, seen, S);
    forall T: set<Key> ensures ClosedOver(src.floor, src.ops, T) <==> ClosedUnder(src.floor, Winners(seen), T) {
      ClosedOverWinners(src, seen, T);
    }
  }

  /* ---------- Catching up ---------- */

  /** What the replica stores once it was sent what the source holds beyond the
      replica's clock: the lesser of two variants. */
  function Merged(rep: State, src: State): map<Key, Op>
    requires Above(src, rep.clock) <= src.ops.Keys
  {
    map k | k in rep.ops.Keys + Above(src, rep.clock) ::
      if k !in Above(src, rep.clock) then rep.ops[k]
      else if k in rep.ops then Winner(src.ops[k], rep.ops[k])
      else src.ops[k]
  }

  /** From what the replica integrated, those variants lead to all that the
      source integrated. */
  ghost predicate Leads(rep: State, src: State) {
    Above(src, rep.clock) <= src.ops.Keys && ForcedOver(src.floor, Merged(rep, src), rep.integrated, src.integrated)
  }

  /** No variant the replica holds back is displaced by one it is sent. */
  ghost predicate NoneDisplaced(rep: State, src: State) {
    forall k | k in Above(src, rep.clock) && k in src.ops && k in rep.ops :: !VariantLess(src.ops[k], rep.ops[k])
  }

  ghost function NewsOf(rep: State, src: State): set<Op>
    requires Above(src, rep.clock) <= src.ops.Keys
  {
    set k | k in Above(src, rep.clock) :: src.ops[k]
  }

  lemma StoredVariant(rep: State, seenR: set<Op>, s: State, seen: set<Op>, sent: set<Op>, k: Key)
    requires StoresWinners(rep.floor, rep.ops, seenR) && StoresWinners(s.floor, s.ops, seen) && k in s.ops
    requires seenR <= seen <= seenR + sent
    ensures (k in rep.ops && s.ops[k] == rep.ops[k]) || s.ops[k] in sent
    ensures k in rep.ops ==> s.ops[k] == rep.ops[k] || VariantLess(s.ops[k], rep.ops[k])
  {
    hide Valid, VariantLess;
    var w := s.ops[k];
    if w in seenR && w != rep.ops[k] { VariantAsymmetric(rep.ops[k], w); }
  }

  /** A state on the way stores only variants of the merge, if none is
      displaced. */
  lemma StoresOfMerged(src: State, seenS: set<Op>, rep: State, seenR: set<Op>, s: State, seen: set<Op>)
    requires Inv(src, seenS) && Inv(rep, seenR) && Inv(s, seen) && NoneDisplaced(rep, src)
    requires Above(src, rep.clock) <= src.ops.Keys && seenR <= seen <= seenR + NewsOf(rep, src)
    ensures forall k | k in s.ops :: k in Merged(rep, src) && s.ops[k] == Merged(rep, src)[k]
  {
    hide *;
    Winners3(src, seenS, rep, seenR, s, seen);
    forall k | k in s.ops ensures k in Merged(rep, src) && s.ops[k] == Merged(rep, src)[k] {
      MergedAt(src, seenS, rep, seenR, s, seen, k);
    }
  }

  /** At the end exactly the merge is stored. */
  lemma StoresMerged(src: State, seenS: set<Op>, rep: State, seenR: set<Op>, s: State, seen: set<Op>)
    requires Inv(src, seenS) && Inv(rep, seenR) && Inv(s, seen)
    requires Above(src, rep.clock) <= src.ops.Keys && seen == seenR + NewsOf(rep, src)
    ensures s.ops == Merged(rep, src)
  {
    hide *;
    Winners3(src, seenS, rep, seenR, s, seen);
    var merged := Merged(rep, src);
    forall k | k in s.ops ensures k in merged && s.ops[k] == merged[k] { MergedAt(src, seenS, rep, seenR, s, seen, k); }
    forall k | k in merged ensures k in s.ops { MergedStored(src, seenS, rep, seenR, s, seen, k); }
  }

  lemma Winners3(src: State, seenS: set<Op>, rep: State, seenR: set<Op>, s: State, seen: set<Op>)
    requires Inv(src, seenS) && Inv(rep, seenR) && Inv(s, seen)
    ensures StoresWinners(src.floor, src.ops, seenS) && StoresWinners(rep.floor, rep.ops, seenR)
    ensures StoresWinners(s.floor, s.ops, seen)
  {
  }

  lemma MergedStored(src: State, seenS: set<Op>, rep: State, seenR: set<Op>, s: State, seen: set<Op>, k: Key)
    requires StoresWinners(src.floor, src.ops, seenS) && StoresWinners(rep.floor, rep.ops, seenR)
    requires StoresWinners(s.floor, s.ops, seen) && Above(src, rep.clock) <= src.ops.Keys && seen == seenR + NewsOf(rep, src)
    requires k in Merged(rep, src)
    ensures k in s.ops
  {
    hide Valid, VariantLess, Above;
    if k in Above(src, rep.clock) {
      assert src.ops[k] in seen && KeyOf(src.ops[k]) == k;
    } else {
      assert rep.ops[k] in seen && KeyOf(rep.ops[k]) == k;
    }
  }

  lemma MergedAt(src: State, seenS: set<Op>, rep: State, seenR: set<Op>, s: State, seen: set<Op>, k: Key)
    requires StoresWinners(src.floor, src.ops, seenS) && StoresWinners(rep.floor, rep.ops, seenR)
    requires StoresWinners(s.floor, s.ops, seen) && k in s.ops
    requires Above(src, rep.clock) <= src.ops.Keys && seenR <= seen <= seenR + NewsOf(rep, src)
    ensures k in Merged(rep, src)
    ensures NoneDisplaced(rep, src) || seen == seenR + NewsOf(rep, src) ==> s.ops[k] == Merged(rep, src)[k]
  {
    StoredVariant(rep, seenR, s, seen, NewsOf(rep, src), k);
    NewsKeys(src, seenS, rep, s.ops[k]);
    NewsVariant(src, seenS, rep, seenR, s, seen, k);
    assert KeyOf(s.ops[k]) == k;
    hide StoresWinners, VariantLess, Above, NewsOf;
    if k in Above(src, rep.clock) && k in rep.ops && VariantLess(src.ops[k], rep.ops[k]) {
      VariantAsymmetric(src.ops[k], rep.ops[k]);
    }
  }

  lemma NewsKeys(src: State, seenS: set<Op>, rep: State, op: Op)
    requires StoresWinners(src.floor, src.ops, seenS) && Above(src, rep.clock) <= src.ops.Keys
    ensures op in NewsOf(rep, src) ==> KeyOf(op) in Above(src, rep.clock) && op == src.ops[KeyOf(op)]
  {
    hide Above, Valid, VariantLess;
  }

  /** Once all news was seen, no news variant is less than the one stored. */
  lemma NewsVariant(src: State, seenS: set<Op>, rep: State, seenR: set<Op>, s: State, seen: set<Op>, k: Key)
    requires StoresWinners(src.floor, src.ops, seenS) && StoresWinners(s.floor, s.ops, seen) && k in s.ops
    requires Above(src, rep.clock) <= src.ops.Keys
    ensures k in Above(src, rep.clock) && seen == seenR + NewsOf(rep, src) ==>
      s.ops[k] == src.ops[k] || VariantLess(s.ops[k], src.ops[k])
  {
    hide Above, Valid, VariantLess;
    if k in Above(src, rep.clock) && seen == seenR + NewsOf(rep, src) {
      assert src.ops[k] in seen && KeyOf(src.ops[k]) == k;
    }
  }

  /** The run in which a live replica reads with its own clock and applies the
      answer, with room for it. */
  ghost predicate CatchingUp(src: State, seenS: set<Op>, seenR: set<Op>, q: ReadRequest, tr: seq<State>) {
    && Inv(src, seenS) && tr != [] && Inv(tr[0], seenR) && !tr[0].sealed && !tr[0].closed
    && tr[0].floor == src.floor && Below(tr[0].clock, src.clock)
    && q.cursor == Some(ClockValue(tr[0].clock)) && Delivers(tr, ReadOf(src, q).ops)
    && Pending(tr[0]) + |ReadOf(src, q).ops| <= tr[0].maxPending
  }

  lemma CatchUpSent(src: State, seenS: set<Op>, seenR: set<Op>, q: ReadRequest, tr: seq<State>)
    requires CatchingUp(src, seenS, seenR, q, tr)
    ensures ParseClock(ReadOf(src, q).nextCursor) == Some(src.clock)
    ensures NoneRefused(tr, ReadOf(src, q).ops)
    ensures Above(src, tr[0].clock) <= src.ops.Keys && Counted(src.floor, ReadOf(src, q).ops) == NewsOf(tr[0], src)
  {
    hide Inv, Applied, ApplyOutputs, ReadOf, Counted, Listing, NoneRefused, ParseClock, ClockMatches, ClockValue, Below;
    InvClock(tr[0], seenR);
    InvClock(src, seenS);
    IncrementalRead(src, q, tr[0].clock);
    ClockValueParses(src.clock);
    RoomSuffices(tr, ReadOf(src, q).ops, seenR);
    ReplicaSeesListing(src, seenS, Above(src, tr[0].clock));
  }

  lemma CountedPrefix(floor: map<string, int>, ops: seq<Op>, n: nat)
    requires n <= |ops|
    ensures Counted(floor, ops[..n]) <= Counted(floor, ops)
  {
  }

  /** Every state of that run knows what the replica knew and some of the news. */
  lemma CatchUpStates(src: State, seenS: set<Op>, seenR: set<Op>, q: ReadRequest, tr: seq<State>, n: nat) returns (seen: set<Op>)
    requires CatchingUp(src, seenS, seenR, q, tr) && n < |tr|
    ensures Inv(tr[n], seen) && tr[n].floor == src.floor && tr[0].integrated <= tr[n].integrated
    ensures Above(src, tr[0].clock) <= src.ops.Keys && seenR <= seen <= seenR + NewsOf(tr[0], src)
    ensures n == |tr| - 1 ==> seen == seenR + NewsOf(tr[0], src)
  {
    CatchUpSent(src, seenS, seenR, q, tr);
    var ops := ReadOf(src, q).ops;
    hide *;
    DeliveryHead(tr, ops, n);
    DeliveryPrefix(tr, ops, n);
    StartsOpen(src, seenS, seenR, q, tr);
    DeliveryExtendsSeen(tr[..n + 1], ops[..n], seenR);
    DeliveryGrows(tr[..n + 1], ops[..n], seenR);
    CountedPrefix(src.floor, ops, n);
    seen := seenR + Counted(src.floor, ops[..n]);
  }

  lemma DeliveryHead(tr: seq<State>, ops: seq<Op>, n: nat)
    requires Delivers(tr, ops) && n < |tr|
    ensures n <= |ops| && |tr| == |ops| + 1 && tr[..n + 1][0] == tr[0] && Last(tr[..n + 1]) == tr[n]
    ensures n == |tr| - 1 ==> ops[..n] == ops
  {
    hide Applied;
  }

  lemma StartsOpen(src: State, seenS: set<Op>, seenR: set<Op>, q: ReadRequest, tr: seq<State>)
    requires CatchingUp(src, seenS, seenR, q, tr)
    ensures Inv(tr[0], seenR) && !tr[0].sealed && !tr[0].closed && tr[0].floor == src.floor
  {
  }

  lemma {:induction false} DeliveryGrows(tr: seq<State>, ops: seq<Op>, seen: set<Op>)
    requires Delivers(tr, ops) && NoneRefused(tr, ops) && Inv(tr[0], seen) && !tr[0].sealed && !tr[0].closed
    ensures tr[0].integrated <= Last(tr).integrated
    decreases |ops|
  {
    hide Inv, Applied, ApplyOutputs, Valid;
    if ops != [] {
      var n := |ops| - 1;
      DeliveryPrefix(tr, ops, n);
      DeliveryGrows(tr[..n + 1], ops[..n], seen);
      DeliveryExtendsSeen(tr[..n + 1], ops[..n], seen);
      ApplyKeepsInv(tr[n], seen + Counted(tr[0].floor, ops[..n]), ops[n], tr[n + 1]);
    }
  }

  /** One apply integrates nothing that a closed set above lacks. */
  lemma ApplyWithin(s: State, op: Op, t: State, M: map<Key, Op>, T: set<Key>)
    requires Applied(s, op, t) && ClosedOver(s.floor, M, T) && s.integrated <= T
    requires forall k | k in t.ops :: k in M && t.ops[k] == M[k]
    ensures t.integrated <= T
  {
    FiledKeeps(s, op);
    assert t.ops == Filed(s, op).ops;
    hide Filed, Prerequisites, ClockMatches;
    assert ClosedOver(s.floor, t.ops, T);
  }

  /** Without displacement the replica integrates only what the merge leads to. */
  lemma {:induction false} CatchUpWithin(src: State, seenS: set<Op>, seenR: set<Op>, q: ReadRequest, tr: seq<State>, n: nat, T: set<Key>)
    requires CatchingUp(src, seenS, seenR, q, tr) && n < |tr| && NoneDisplaced(tr[0], src)
    requires Above(src, tr[0].clock) <= src.ops.Keys && ClosedOver(src.floor, Merged(tr[0], src), T) && tr[0].integrated <= T
    ensures tr[n].integrated <= T
    decreases n
  {
    hide Merged, ClosedOver, NoneDisplaced, Above, Applied, Inv, ReadOf;
    if n > 0 {
      CatchUpWithin(src, seenS, seenR, q, tr, n - 1, T);
      var before := CatchUpStates(src, seenS, seenR, q, tr, n - 1);
      var seen := CatchUpStates(src, seenS, seenR, q, tr, n);
      StoresOfMerged(src, seenS, tr[0], seenR, tr[n], seen);
      assert Applied(tr[n - 1], ReadOf(src, q).ops[n - 1], tr[n]);
      ApplyWithin(tr[n - 1], ReadOf(src, q).ops[n - 1], tr[n], Merged(tr[0], src), T);
    }
  }

  /** The end of the run: exactly the merge is stored, and what it leads to is
      integrated. */
  lemma CatchUpEnds(src: State, seenS: set<Op>, seenR: set<Op>, q: ReadRequest, tr: seq<State>)
    requires CatchingUp(src, seenS, seenR, q, tr)
    ensures Leads(tr[0], src) ==> src.integrated <= Last(tr).integrated
    ensures src.integrated <= Last(tr).integrated <==> Below(src.clock, Last(tr).clock)
    ensures Pending(tr[0]) == 0 && src.integrated <= Last(tr).integrated ==> Last(tr).clock == src.clock
  {
    var rep, end := tr[0], Last(tr);
    var seen := CatchUpStates(src, seenS, seenR, q, tr, |tr| - 1);
    StartsOpen(src, seenS, seenR, q, tr);
    StoresMerged(src, seenS, rep, seenR, end, seen);
    StaysClosed(end, seen);
    InvClock(src, seenS);
    InvClock(end, seen);
    hide Inv, Merged, Above, ClosedOver, ClockMatches, Below, ReadOf, Applied;
    ClockMonotone(src.floor, src.clock, src.integrated, end.clock, end.integrated);
    if Pending(rep) == 0 && src.integrated <= end.integrated {
      NothingBeyondSource(src, rep, seenR, seenS, end, Above(src, rep.clock), seen);
      ClockDetermined(src.floor, src.clock, end.clock, src.integrated);
    }
  }

  lemma StaysClosed(s: State, seen: set<Op>)
    requires Inv(s, seen)
    ensures ClosedOver(s.floor, s.ops, s.integrated)
  {
  }

  /** A live replica that reads with its own clock and applies the answer reaches
      the answer's cursor if the variants then stored lead to what the source
      integrated, and stops there if it held nothing back. */
  lemma CatchUp(src: State, seenS: set<Op>, seenR: set<Op>, q: ReadRequest, tr: seq<State>)
    requires CatchingUp(src, seenS, seenR, q, tr) && Leads(tr[0], src)
    ensures ParseClock(ReadOf(src, q).nextCursor) == Some(src.clock)
    ensures NoneRefused(tr, ReadOf(src, q).ops)
    ensures Below(src.clock, Last(tr).clock)
    ensures Pending(tr[0]) == 0 ==> Last(tr).clock == src.clock
  {
    hide CatchingUp, Leads, Below, NoneRefused, ReadOf, ParseClock;
    CatchUpSent(src, seenS, seenR, q, tr);
    CatchUpEnds(src, seenS, seenR, q, tr);
  }

  /** That condition is exact unless the answer displaces a variant the replica
      held back, which the replica may integrate before it is displaced. */
  lemma CatchUpExactly(src: State, seenS: set<Op>, seenR: set<Op>, q: ReadRequest, tr: seq<State>)
    requires CatchingUp(src, seenS, seenR, q, tr) && NoneDisplaced(tr[0], src)
    ensures Below(src.clock, Last(tr).clock) <==> Leads(tr[0], src)
  {
    CatchUpSent(src, seenS, seenR, q, tr);
    CatchUpEnds(src, seenS, seenR, q, tr);
    IntegratedBelow(src, seenS, seenR, q, tr);
    if src.integrated <= Last(tr).integrated {
      hide CatchingUp, Merged, Above, ClosedOver, NoneDisplaced, Below, ReadOf;
      forall T: set<Key> | tr[0].integrated <= T && ClosedOver(src.floor, Merged(tr[0], src), T) ensures src.integrated <= T {
        CatchUpWithin(src, seenS, seenR, q, tr, |tr| - 1, T);
      }
    }
  }

  lemma IntegratedBelow(src: State, seenS: set<Op>, seenR: set<Op>, q: ReadRequest, tr: seq<State>)
    requires CatchingUp(src, seenS, seenR, q, tr)
    ensures tr[0].integrated <= src.integrated
  {
    InvClock(src, seenS);
    InvClock(tr[0], seenR);
    hide Inv;
    ClockMonotone(src.floor, tr[0].clock, tr[0].integrated, src.clock, src.integrated);
  }

  /** A replica that holds nothing back catches up exactly when the source,
      beyond what the replica has, integrated only what follows from the
      variants it stores. */
  lemma CatchUpOfEmptyBuffer(src: State, seenS: set<Op>, seenR: set<Op>, q: ReadRequest, tr: seq<State>)
    requires CatchingUp(src, seenS, seenR, q, tr) && Pending(tr[0]) == 0
    ensures Last(tr).clock == src.clock <==> LeastOver(src.floor, src.ops, tr[0].integrated, src.integrated)
  {
    var rep := tr[0];
    IntegratedBelow(src, seenS, seenR, q, tr);
    CatchUpSent(src, seenS, seenR, q, tr);
    StartsOpen(src, seenS, seenR, q, tr);
    StaysClosed(src, seenS);
    InvClock(rep, seenR);
    InvClock(src, seenS);
    NonePending(rep);
    NewsApart(src, rep);
    CatchUpExactly(src, seenS, seenR, q, tr);
    CatchUpEnds(src, seenS, seenR, q, tr);
    hide CatchingUp, Inv, Below, ReadOf;
    BelowSame(src.clock, Last(tr).clock);
    LeadsFromSource(src, rep);
  }

  lemma BelowSame(a: map<string, int>, b: map<string, int>)
    ensures a == b ==> Below(a, b)
  {
  }

  lemma NewsApart(src: State, rep: State)
    requires rep.ops.Keys == rep.integrated && ClockMatches(rep.floor, rep.clock, rep.integrated)
    ensures Above(src, rep.clock) !! rep.ops.Keys && NoneDisplaced(rep, src)
  {
    forall k | k in Above(src, rep.clock) ensures k !in rep.ops {
      assert Key(k.origin, k.seqNo) in rep.integrated <==> At(rep.floor, k.origin) < k.seqNo <= At(rep.clock, k.origin);
    }
    hide VariantLess;
  }

  /** With nothing held back, closure over the merge and over the source's table
      agree on what the source integrated. */
  lemma LeadsFromSource(src: State, rep: State)
    requires Above(src, rep.clock) <= src.ops.Keys && Above(src, rep.clock) !! rep.ops.Keys && rep.ops.Keys == rep.integrated
    requires ClockMatches(src.floor, rep.clock, rep.integrated) && ClockMatches(src.floor, src.clock, src.integrated)
    requires rep.integrated <= src.integrated <= src.ops.Keys && ClosedOver(src.floor, src.ops, src.integrated)
    ensures Leads(rep, src) <==> LeastOver(src.floor, src.ops, rep.integrated, src.integrated)
  {
    NewsAreRest(src, rep);
    hide ClockMatches, Above, Prerequisites;
    if Leads(rep, src) {
      forall T: set<Key> | rep.integrated <= T && ClosedOver(src.floor, src.ops, T) ensures src.integrated <= T {
        assert ClosedOver(src.floor, Merged(rep, src), T);
      }
    }
    if LeastOver(src.floor, src.ops, rep.integrated, src.integrated) {
      forall T: set<Key> | rep.integrated <= T && ClosedOver(src.floor, Merged(rep, src), T) ensures src.integrated <= T {
        var U := T * src.integrated;
        forall k | k in src.ops && Prerequisites(src.floor, src.ops[k]) <= U ensures k in U {
          assert k in src.integrated;
        }
        assert ClosedOver(src.floor, src.ops, U);
      }
    }
  }

  lemma NewsAreRest(src: State, rep: State)
    requires ClockMatches(src.floor, rep.clock, rep.integrated) && ClockMatches(src.floor, src.clock, src.integrated)
    requires rep.integrated <= src.integrated
    ensures Above(src, rep.clock) == src.integrated - rep.integrated
  {
    forall k | k in src.integrated ensures k in Above(src, rep.clock) <==> k !in rep.integrated {
      assert Key(k.origin, k.seqNo) in rep.integrated <==> At(src.floor, k.origin) < k.seqNo <= At(rep.clock, k.origin);
      assert Key(k.origin, k.seqNo) in src.integrated;
    }
  }

  lemma SamePrerequisites(floor: map<string, int>, x: Op, y: Op)
    requires KeyOf(x) == KeyOf(y) && x.deps == y.deps
    ensures Prerequisites(floor, x) == Prerequisites(floor, y)
  {
  }

  /** The common case: operations of one identity that name the same
      dependencies always lead to what the source integrated. */
  lemma AgreeingDepsLead(src: State, seenS: set<Op>, rep: State, seenR: set<Op>)
    requires Inv(src, seenS) && Inv(rep, seenR) && rep.floor == src.floor && Below(rep.clock, src.clock)
    requires AgreeOnDeps(seenS + seenR)
    ensures Leads(rep, src)
  {
    InvClock(src, seenS);
    InvClock(rep, seenR);
    ClockMonotone(src.floor, rep.clock, rep.integrated, src.clock, src.integrated);
    NewsAreRest(src, rep);
    hide Valid, VariantLess, ClockMatches, MarksEquivocations, FloorIsBootstrap, Prerequisites, Above;
    forall T: set<Key> | rep.integrated <= T && ClosedOver(src.floor, Merged(rep, src), T) ensures src.integrated <= T {
      var U := T * src.integrated;
      forall op | op in seenS && Prerequisites(src.floor, op) <= U ensures KeyOf(op) in U {
        var k := KeyOf(op);
        assert src.ops[k] in seenS && KeyOf(src.ops[k]) == k;
        SamePrerequisites(src.floor, src.ops[k], op);
        assert k in src.integrated;
        if k !in rep.integrated { MergedAgrees(src, seenS, rep, seenR, k, op); }
      }
      assert ClosedUnder(src.floor, seenS, U);
    }
  }

  lemma MergedAgrees(src: State, seenS: set<Op>, rep: State, seenR: set<Op>, k: Key, op: Op)
    requires Inv(src, seenS) && Inv(rep, seenR) && AgreeOnDeps(seenS + seenR)
    requires Above(src, rep.clock) <= src.ops.Keys && k in Above(src, rep.clock) && op in seenS && KeyOf(op) == k
    ensures k in Merged(rep, src) && Prerequisites(src.floor, Merged(rep, src)[k]) == Prerequisites(src.floor, op)
  {
    hide Valid, VariantLess, ClockMatches, MarksEquivocations, FloorIsBootstrap, Prerequisites, Above, Forced, ClosedOver;
    assert src.ops[k] in seenS && KeyOf(src.ops[k]) == k;
    assert k in rep.ops ==> rep.ops[k] in seenR && KeyOf(rep.ops[k]) == k;
    SamePrerequisites(src.floor, Merged(rep, src)[k], op);
  }

  lemma NonePending(s: State)
    requires s.integrated <= s.ops.Keys && Pending(s) == 0
    ensures s.ops.Keys == s.integrated
  {
    assert |s.ops.Keys - s.integrated| == |s.ops.Keys| - |s.integrated| == 0;
  }

  /** What was seen is stored here or among the news. */
  lemma StoredWithin(rep: State, seenR: set<Op>, end: State, src: State, seenS: set<Op>, news: set<Key>, seen': set<Op>)
    requires StoresWinners(rep.floor, rep.ops, seenR) && StoresWinners(end.floor, end.ops, seen')
    requires StoresWinners(src.floor, src.ops, seenS) && news <= src.ops.Keys
    requires seen' == seenR + set k | k in news :: src.ops[k]
    ensures end.ops.Keys <= rep.ops.Keys + news
  {
    hide Valid, VariantLess;
    forall k | k in end.ops ensures k in rep.ops.Keys + news {
      assert end.ops[k] in seen' && KeyOf(end.ops[k]) == k;
    }
  }

  lemma NothingBeyondSource(src: State, rep: State, seenR: set<Op>, seenS: set<Op>, end: State, news: set<Key>, seen': set<Op>)
    requires Inv(src, seenS) && Inv(rep, seenR) && Inv(end, seen') && rep.floor == src.floor
    requires news == Above(src, rep.clock) && news <= src.ops.Keys && seen' == seenR + set k | k in news :: src.ops[k]
    requires Pending(rep) == 0 && Below(rep.clock, src.clock) && src.integrated <= end.integrated
    ensures end.integrated == src.integrated
  {
    hide StoresWinners, MarksEquivocations, FloorIsBootstrap, Forced, ClosedOver, ClockMatches;
    NonePending(rep);
    ClockMonotone(src.floor, rep.clock, rep.integrated, src.clock, src.integrated);
    StoredWithin(rep, seenR, end, src, seenS, news, seen');
  }

  /** A read at the source's own clock is answered without operations. */
  lemma CaughtUpReadsNothing(s: State, seen: set<Op>, q: ReadRequest)
    requires Inv(s, seen) && q.cursor == Some(ClockValue(s.clock))
    ensures ReadOf(s, q).ops == [] && ReadOf(s, q).bootstrap == None
    ensures ReadOf(s, q).state in {Empty, Eof, ReadState.Closed, Failed}
  {
    hide ReadOf, Inv, Listing, ClockValue;
    InvClock(s, seen);
    IncrementalRead(s, q, s.clock);
    forall k ensures k !in Above(s, s.clock) {
      if k in s.integrated { assert Key(k.origin, k.seqNo) in s.integrated; }
    }
    assert Above(s, s.clock) == {};
    ListingElements(s, {});
  }

  /* ---------- Cursors out of range ---------- */

  ghost predicate BeyondClock(s: State, cursor: map<string, int>) { exists o | o in cursor :: cursor[o] > At(s.clock, o) }

  ghost predicate BehindFloor(s: State, cursor: map<string, int>) { exists o | o in s.floor :: At(cursor, o) < s.floor[o] }

  /** A cursor is invalid exactly when malformed or beyond the clock for some
      origin; otherwise a bootstrap is required exactly when it is behind the
      floor for some origin. */
  lemma CursorKinds(s: State, seen: set<Op>, q: ReadRequest)
    requires Inv(s, seen)
    ensures ReadOf(s, q).state == InvalidCursor <==> CursorOf(q).None? || BeyondClock(s, CursorOf(q).value)
    ensures ReadOf(s, q).state == BootstrapRequired
       <==> q.cursor.Some? && CursorOf(q).Some? && !BeyondClock(s, CursorOf(q).value) && BehindFloor(s, CursorOf(q).value)
  {
    hide Listing, StoresWinners, MarksEquivocations, Forced, ClosedOver, ClockMatches, ParseClock;
    assert s.bootstrap.None? ==> s.floor == map[];
  }

  /** A read from behind the floor is sent what a read without a cursor is, so
      that the reader can rebuild. */
  lemma BehindReadRebuilds(s: State, seen: set<Op>, q: ReadRequest)
    requires Inv(s, seen) && ReadOf(s, q).state == BootstrapRequired
    ensures var full := ReadOf(s, q.(cursor := None));
      ReadOf(s, q).ops == full.ops == Operations(s) && ReadOf(s, q).bootstrap == full.bootstrap == s.bootstrap
      && ReadOf(s, q).nextCursor == full.nextCursor
  {
    hide *;
    FullRead(s, seen, q.(cursor := None));
    CursorKinds(s, seen, q);
    BehindAnswer(s, q);
    AboveFloor(s, seen);
  }

  lemma BehindAnswer(s: State, q: ReadRequest)
    requires q.cursor.Some? && CursorOf(q).Some? && !BeyondClock(s, CursorOf(q).value) && BehindFloor(s, CursorOf(q).value)
    requires ReadOf(s, q).state == BootstrapRequired
    ensures ReadOf(s, q).ops == Listing(s, Above(s, s.floor)) && ReadOf(s, q).bootstrap == s.bootstrap
    ensures ReadOf(s, q).nextCursor == ClockValue(s.clock)
  {
    hide Listing, Above, ClockValue, ParseClock;
  }

  lemma AboveFloor(s: State, seen: set<Op>)
    requires Inv(s, seen)
    ensures Listing(s, Above(s, s.floor)) == Operations(s)
  {
    hide Listing, StoresWinners, MarksEquivocations, Forced, ClosedOver, FloorIsBootstrap;
    forall k | k in s.integrated ensures k.seqNo > At(s.floor, k.origin) {
      assert Key(k.origin, k.seqNo) in s.integrated;
    }
    assert Above(s, s.floor) == s.integrated;
  }
}
