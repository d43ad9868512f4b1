/** Operations that are not settled can be delivered so that replicas differ. */
module CrdtDivergence {
  import opened Wrappers
  import opened CrdtClock
  import opened CrdtSpec
  import opened CrdtRuns
  import opened CrdtConvergence

  /** A bound-free run from the start that delivers exactly `seen`. */
  ghost predicate CompleteRun(maxPending: nat, bootstrap: Option<Bootstrap>, seen: set<Op>, tr: seq<State>, ops: seq<Op>) {
    && Delivers(tr, ops) && NoneRefused(tr, ops)
    && tr[0] == Start(maxPending, bootstrap)
    && Counted(tr[0].floor, ops) == seen
  }

  ghost predicate AlwaysConverges(maxPending: nat, bootstrap: Option<Bootstrap>, seen: set<Op>) {
    forall a, opsA, b, opsB |
      CompleteRun(maxPending, bootstrap, seen, a, opsA) && CompleteRun(maxPending, bootstrap, seen, b, opsB) ::
      Last(a).clock == Last(b).clock
  }

  lemma {:induction false} Enumerate(D: set<Op>) returns (ops: seq<Op>)
    ensures forall op :: op in ops <==> op in D
  {
    if D == {} {
      ops := [];
    } else {
      var op :| op in D;
      var rest := Enumerate(D - {op});
      ops := [op] + rest;
    }
  }

  lemma {:induction false} StoredAtMostSeen(ops: map<Key, Op>, seen: set<Op>)
    requires forall k | k in ops :: ops[k] in seen && KeyOf(ops[k]) == k
    ensures |ops| <= |seen|
    decreases |ops|
  {
    if ops != map[] {
      var k :| k in ops;
      StoredAtMostSeen(ops - {k}, seen - {ops[k]});
      assert |ops - {k}| == |ops| - 1 by { assert (ops - {k}).Keys == ops.Keys - {k}; }
    }
  }

  lemma NotRefused(s: State, seen: set<Op>, op: Op, D: set<Op>)
    requires Inv(s, seen) && seen <= D && op in D && |D| <= s.maxPending
    ensures Diagnose(PendingBoundExceeded, Some(op)) !in ApplyOutputs(s, op)
  {
    hide MarksEquivocations, Forced, ClosedOver, ClockMatches, FloorIsBootstrap, Valid, VariantLess, Ready;
    assert op in seen ==> KeyOf(op) in s.ops;
    if !Stored(s, op) {
      StoredAtMostSeen(s.ops, seen);
      hide StoresWinners;
      CardinalityMonotone(seen + {op}, D);
      assert |seen + {op}| == |seen| + 1;
    }
  }

  /** Any operations of `D` can be delivered when there is room for `D`. */
  lemma {:induction false} DeliverAll(s: State, seen: set<Op>, ops: seq<Op>, D: set<Op>) returns (tr: seq<State>)
    requires Inv(s, seen) && !s.sealed && !s.closed && seen <= D && |D| <= s.maxPending
    requires forall op | op in ops :: op in D
    ensures Delivers(tr, ops) && NoneRefused(tr, ops) && tr[0] == s
    decreases |ops|
  {
    if ops == [] {
      tr := [s];
    } else {
      hide Inv, Applied, ApplyOutputs, Valid;
      NotRefused(s, seen, ops[0], D);
      var t := ApplyTotal(s, seen, ops[0]);
      ApplyExtendsSeen(s, seen, ops[0], t);
      var rest := DeliverAll(t, seen + Counted(s.floor, [ops[0]]), ops[1..], D);
      Prepend(s, ops[0], rest, ops[1..]);
      tr := [s] + rest;
      assert [ops[0]] + ops[1..] == ops;
    }
  }

  lemma Prepend(s: State, op: Op, rest: seq<State>, ops: seq<Op>)
    requires Delivers(rest, ops) && NoneRefused(rest, ops) && Applied(s, op, rest[0])
    requires Diagnose(PendingBoundExceeded, Some(op)) !in ApplyOutputs(s, op)
    ensures Delivers([s] + rest, [op] + ops) && NoneRefused([s] + rest, [op] + ops)
  {
    hide Applied, ApplyOutputs;
    var t, o := [s] + rest, [op] + ops;
    forall i | 0 <= i < |o|
      ensures Applied(t[i], o[i], t[i + 1]) && Diagnose(PendingBoundExceeded, Some(o[i])) !in ApplyOutputs(t[i], o[i])
    {
      if i > 0 {
        assert Applied(rest[i - 1], ops[i - 1], rest[i]);
        assert Diagnose(PendingBoundExceeded, Some(ops[i - 1])) !in ApplyOutputs(rest[i - 1], ops[i - 1]);
      }
    }
  }

  lemma {:induction false} Join(a: seq<State>, opsA: seq<Op>, b: seq<State>, opsB: seq<Op>)
    requires Delivers(a, opsA) && NoneRefused(a, opsA) && Delivers(b, opsB) && NoneRefused(b, opsB) && Last(a) == b[0]
    ensures var t := a[..|opsA|] + b;
      Delivers(t, opsA + opsB) && NoneRefused(t, opsA + opsB) && t[0] == a[0] && Last(t) == Last(b)
    decreases |opsA|
  {
    hide Applied, ApplyOutputs;
    if opsA == [] {
      assert a[..0] + b == b && opsA + opsB == opsB;
    } else {
      var n := |opsA| - 1;
      DeliveryPrefix(a, opsA, n);
      assert Applied(a[n], opsA[n], a[n + 1]);
      Prepend(a[n], opsA[n], b, opsB);
      Join(a[..n + 1], opsA[..n], [a[n]] + b, [opsA[n]] + opsB);
      assert a[..n + 1][..n] + ([a[n]] + b) == a[..|opsA|] + b;
      assert opsA[..n] + ([opsA[n]] + opsB) == opsA + opsB;
    }
  }

  lemma WinnersOfDistinct(seen: set<Op>)
    requires forall x, y | x in seen && y in seen && KeyOf(x) == KeyOf(y) :: x == y
    ensures Winners(seen) == seen
  {
  }

  lemma WinnersAreDistinct(seen: set<Op>)
    ensures forall x, y | x in Winners(seen) && y in Winners(seen) && KeyOf(x) == KeyOf(y) :: x == y
  {
    forall x, y | x in Winners(seen) && y in Winners(seen) && KeyOf(x) == KeyOf(y) ensures x == y {
      if x != y { VariantAsymmetric(x, y); }
    }
  }

  /** Operations that all win integrate their own least fixpoint. */
  lemma DistinctIntegrate(s: State, seen: set<Op>, S: set<Key>)
    requires Inv(s, seen) && LeastClosed(s.floor, seen, S)
    requires forall x, y | x in seen && y in seen && KeyOf(x) == KeyOf(y) :: x == y
    ensures s.integrated == S
  {
    WinnersOfDistinct(seen);
    SettledIntegrates(s, seen, S);
  }

  /** Once all winners are stored, losing variants change nothing. */
  lemma LoserChangesNothing(s: State, seen: set<Op>, op: Op, t: State)
    requires Inv(s, seen) && Applied(s, op, t)
    requires KeyOf(op) in s.ops && (op == s.ops[KeyOf(op)] || VariantLess(s.ops[KeyOf(op)], op))
    ensures t.ops == s.ops && t.integrated == s.integrated
  {
    if VariantLess(op, s.ops[KeyOf(op)]) && op != s.ops[KeyOf(op)] { VariantAsymmetric(op, s.ops[KeyOf(op)]); }
    assert Filed(s, op).ops == s.ops by {
      if Admissible(s, op) && s.ops[KeyOf(op)] != op { FiledVariant(s, op); }
    }
    FiledKeeps(s, op);
  }

  lemma {:induction false} LosersChangeNothing(tr: seq<State>, ops: seq<Op>, seen: set<Op>)
    requires Delivers(tr, ops) && NoneRefused(tr, ops) && Inv(tr[0], seen) && !tr[0].sealed && !tr[0].closed
    requires forall op | op in ops ::
      KeyOf(op) in tr[0].ops && (op == tr[0].ops[KeyOf(op)] || VariantLess(tr[0].ops[KeyOf(op)], op))
    ensures Last(tr).ops == tr[0].ops && Last(tr).integrated == tr[0].integrated
    decreases |ops|
  {
    hide Inv, Applied, ApplyOutputs, VariantLess, Valid;
    if ops != [] {
      var n := |ops| - 1;
      DeliveryPrefix(tr, ops, n);
      LosersChangeNothing(tr[..n + 1], ops[..n], seen);
      DeliveryExtendsSeen(tr[..n + 1], ops[..n], seen);
      assert Last(tr[..n + 1]) == tr[n] && Applied(tr[n], ops[n], tr[n + 1]);
      LoserChangesNothing(tr[n], seen + Counted(tr[0].floor, ops[..n]), ops[n], tr[n + 1]);
    }
  }

  lemma {:induction false} DeliveryOnlyIntegrates(tr: seq<State>, ops: seq<Op>, seen: set<Op>)
    requires Delivers(tr, ops) && NoneRefused(tr, ops) && Inv(tr[0], seen) && !tr[0].sealed && !tr[0].closed
    ensures tr[0].integrated <= Last(tr).integrated
    decreases |ops|
  {
    hide Inv, Applied, ApplyOutputs, Valid;
    if ops != [] {
      var n := |ops| - 1;
      DeliveryPrefix(tr, ops, n);
      DeliveryOnlyIntegrates(tr[..n + 1], ops[..n], seen);
      DeliveryExtendsSeen(tr[..n + 1], ops[..n], seen);
      assert Last(tr[..n + 1]) == tr[n] && Applied(tr[n], ops[n], tr[n + 1]);
      ApplyKeepsInv(tr[n], seen + Counted(tr[0].floor, ops[..n]), ops[n], tr[n + 1]);
    }
  }

  /** A start with room, and the runs that begin there. */
  ghost predicate Roomy(s: State, seen: set<Op>) {
    && Inv(s, {}) && !s.sealed && !s.closed && |seen| <= s.maxPending
    && forall op | op in seen :: Valid(op) && op.seqNo > At(s.floor, op.origin)
  }

  /** Delivers `first` and then all of `seen`; `m` is the state in between. */
  lemma TwoPhases(s: State, seen: set<Op>, first: set<Op>) returns (m: State, tr: seq<State>, ops: seq<Op>, late: seq<State>, rest: seq<Op>)
    requires Roomy(s, seen) && first <= seen
    ensures Inv(m, first) && m.floor == s.floor && !m.sealed && !m.closed
    ensures Delivers(late, rest) && NoneRefused(late, rest) && late[0] == m && (forall op :: op in rest <==> op in seen)
    ensures Delivers(tr, ops) && NoneRefused(tr, ops) && tr[0] == s && Counted(s.floor, ops) == seen && Last(tr) == Last(late)
  {
    hide Inv, Applied, ApplyOutputs, Valid;
    var ops1 := Enumerate(first);
    rest := Enumerate(seen);
    var tr1 := DeliverAll(s, {}, ops1, seen);
    DeliveryExtendsSeen(tr1, ops1, {});
    m := Last(tr1);
    assert {} + Counted(s.floor, ops1) == first;
    late := DeliverAll(m, first, rest, seen);
    Join(tr1, ops1, late, rest);
    tr, ops := tr1[..|ops1|] + late, ops1 + rest;
  }

  /** Winners first: the rest of the operations changes nothing any more. */
  lemma WinnersFirst(s: State, seen: set<Op>, S: set<Key>) returns (tr: seq<State>, ops: seq<Op>)
    requires Roomy(s, seen) && LeastClosed(s.floor, Winners(seen), S)
    ensures Delivers(tr, ops) && NoneRefused(tr, ops) && tr[0] == s && Counted(s.floor, ops) == seen
    ensures Last(tr).integrated == S
  {
    var m, late, rest;
    m, tr, ops, late, rest := TwoPhases(s, seen, Winners(seen));
    WinnersAreDistinct(seen);
    DistinctIntegrate(m, Winners(seen), S);
    forall op | op in rest ensures KeyOf(op) in m.ops && (op == m.ops[KeyOf(op)] || VariantLess(m.ops[KeyOf(op)], op)) {
      var w := WinnerExists(seen, op);
      assert KeyOf(w) in m.ops && m.ops[KeyOf(w)] in Winners(seen);
    }
    hide *;
    LosersChangeNothing(late, rest, Winners(seen));
  }

  lemma LoserApart(seen: set<Op>, S: set<Key>, x: Op, first: set<Op>)
    requires x in seen && KeyOf(x) !in S && first == (set w | w in Winners(seen) && KeyOf(w) in S) + {x}
    ensures first <= seen && forall a, b | a in first && b in first && KeyOf(a) == KeyOf(b) :: a == b
  {
    WinnersAreDistinct(seen);
    hide VariantLess;
  }

  /** A losing variant that is ready first gets its identity integrated. */
  lemma LoserFirst(s: State, seen: set<Op>, S: set<Key>, x: Op) returns (tr: seq<State>, ops: seq<Op>)
    requires Roomy(s, seen) && LeastClosed(s.floor, Winners(seen), S)
    requires x in seen && Prerequisites(s.floor, x) <= S && KeyOf(x) !in S
    ensures Delivers(tr, ops) && NoneRefused(tr, ops) && tr[0] == s && Counted(s.floor, ops) == seen
    ensures KeyOf(x) in Last(tr).integrated
  {
    var first := (set w | w in Winners(seen) && KeyOf(w) in S) + {x};
    LoserApart(seen, S, x, first);
    hide Winners, LeastClosed, Prerequisites;
    var m, late, rest;
    m, tr, ops, late, rest := TwoPhases(s, seen, first);
    LoserIntegrated(m, seen, first, S, x);
    assert KeyOf(x) in m.integrated;
    hide *;
    DeliveryOnlyIntegrates(late, rest, first);
  }

  lemma LoserIntegrated(m: State, seen: set<Op>, first: set<Op>, S: set<Key>, x: Op)
    requires first == (set w | w in Winners(seen) && KeyOf(w) in S) + {x}
    requires LeastClosed(m.floor, Winners(seen), S) && Prerequisites(m.floor, x) <= S
    requires Inv(m, first) && forall a, b | a in first && b in first && KeyOf(a) == KeyOf(b) :: a == b
    ensures KeyOf(x) in m.integrated
  {
    forall op | op in first ensures m.ops[KeyOf(op)] == op { assert m.ops[KeyOf(op)] in first; }
    var T := m.integrated * S;
    forall op | op in Winners(seen) && Prerequisites(m.floor, op) <= T ensures KeyOf(op) in T {
      assert KeyOf(op) in S;
      assert op in first && m.ops[KeyOf(op)] == op;
    }
    assert S <= T;
    assert m.ops[KeyOf(x)] == x;
  }

  /** Exactly the settled operations converge however they are delivered. */
  lemma ConvergesExactlyWhenSettled(maxPending: nat, bootstrap: Option<Bootstrap>, seen: set<Op>)
    requires Roomy(Start(maxPending, bootstrap), seen)
    ensures AlwaysConverges(maxPending, bootstrap, seen) <==> Settled(Start(maxPending, bootstrap).floor, seen)
  {
    var s := Start(maxPending, bootstrap);
    StartInv(maxPending, bootstrap);
    if Settled(s.floor, seen) {
      forall a, opsA, b, opsB |
        CompleteRun(maxPending, bootstrap, seen, a, opsA) && CompleteRun(maxPending, bootstrap, seen, b, opsB)
        ensures Last(a).clock == Last(b).clock
      {
        Convergence(bootstrap, a, opsA, b, opsB);
      }
    } else {
      Diverges(maxPending, bootstrap, seen);
    }
  }

  lemma Diverges(maxPending: nat, bootstrap: Option<Bootstrap>, seen: set<Op>)
    requires Roomy(Start(maxPending, bootstrap), seen)
    requires !Settled(Start(maxPending, bootstrap).floor, seen)
    ensures !AlwaysConverges(maxPending, bootstrap, seen)
  {
    var s := Start(maxPending, bootstrap);
    var S, x := UnsettledBy(s.floor, seen);
    RoomyFacts(s, seen);
    hide *;
    var a, opsA := WinnersFirst(s, seen, S);
    var b, opsB := LoserFirst(s, seen, S, x);
    EndsWith(s, seen, a, opsA);
    EndsWith(s, seen, b, opsB);
    ClocksDiffer(Last(a), Last(b), seen);
    NotAlways(maxPending, bootstrap, seen, a, opsA, b, opsB);
  }

  lemma UnsettledBy(floor: map<string, int>, seen: set<Op>) returns (S: set<Key>, x: Op)
    requires !Settled(floor, seen)
    ensures LeastClosed(floor, Winners(seen), S) && x in seen && Prerequisites(floor, x) <= S && KeyOf(x) !in S
  {
    hide LeastClosed, Winners, Prerequisites;
    S :| LeastClosed(floor, Winners(seen), S) && !ClosedUnder(floor, seen, S);
    x :| x in seen && Prerequisites(floor, x) <= S && KeyOf(x) !in S;
  }

  lemma RoomyFacts(s: State, seen: set<Op>)
    requires Roomy(s, seen)
    ensures Inv(s, {}) && !s.sealed && !s.closed
  {
  }

  lemma EndsWith(s: State, seen: set<Op>, tr: seq<State>, ops: seq<Op>)
    requires Inv(s, {}) && !s.sealed && !s.closed
    requires Delivers(tr, ops) && NoneRefused(tr, ops) && tr[0] == s && Counted(s.floor, ops) == seen
    ensures Inv(Last(tr), seen) && Last(tr).floor == s.floor
  {
    hide *;
    DeliveryExtendsSeen(tr, ops, {});
    assert {} + seen == seen;
  }

  lemma NotAlways(maxPending: nat, bootstrap: Option<Bootstrap>, seen: set<Op>, a: seq<State>, opsA: seq<Op>, b: seq<State>, opsB: seq<Op>)
    requires Delivers(a, opsA) && NoneRefused(a, opsA) && a[0] == Start(maxPending, bootstrap) && Counted(a[0].floor, opsA) == seen
    requires Delivers(b, opsB) && NoneRefused(b, opsB) && b[0] == Start(maxPending, bootstrap) && Counted(b[0].floor, opsB) == seen
    requires Last(a).clock != Last(b).clock
    ensures !AlwaysConverges(maxPending, bootstrap, seen)
  {
    hide Delivers, NoneRefused, Counted, Start;
    assert CompleteRun(maxPending, bootstrap, seen, a, opsA) && CompleteRun(maxPending, bootstrap, seen, b, opsB);
  }

  lemma ClocksDiffer(s: State, t: State, seen: set<Op>)
    requires Inv(s, seen) && Inv(t, seen) && s.floor == t.floor && s.integrated != t.integrated
    ensures s.clock != t.clock
  {
    if s.clock == t.clock {
      ClockMonotone(s.floor, s.clock, s.integrated, t.clock, t.integrated);
      ClockMonotone(s.floor, t.clock, t.integrated, s.clock, s.integrated);
    }
  }

  /** A family that does not settle: two variants of `a:1` that wait for
      different origins, only the loser's dependency having arrived. */
  lemma UnsettledExample(x: Op, y: Op, z: Op)
    requires x == Op("a", 1, [ClockEntry("b", 1)], []) && y == Op("a", 1, [ClockEntry("c", 1)], [])
    requires z == Op("c", 1, [], [])
    ensures Valid(x) && Valid(y) && Valid(z) && !Settled(map[], {x, y, z})
  {
    assert Valid(x) && Valid(y) && Valid(z);
    assert EntryLess(x.deps[0], y.deps[0]) && VariantLess(x, y);
    VariantAsymmetric(x, y);
    var seen := {x, y, z};
    assert Winners(seen) == {x, z};
    var S := {KeyOf(z)};
    var e := ClockEntry("b", 1);
    assert e in x.deps && Key("b", 1) in Prerequisites(map[], x);
    assert Prerequisites(map[], z) == {};
    assert LeastClosed(map[], Winners(seen), S);
    assert forall k | k in Prerequisites(map[], y) :: k == KeyOf(z);
  }
}
