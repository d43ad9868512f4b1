/** Replicas that are given the same operations, in any order and with any
    repetition: when they agree, and that nothing less makes them agree. */
module CrdtConvergence {
  import opened Wrappers
  import opened Orders
  import opened CrdtClock
  import opened CrdtSpec
  import opened CrdtRuns

  /** A replica before its first operation, with an optional bootstrap. */
  function Start(maxPending: nat, bootstrap: Option<Bootstrap>): State {
    match bootstrap
    case None => New(maxPending)
    case Some(b) => Installed(New(maxPending), b)
  }

  /** The states of a run that applies `ops` in turn. */
  ghost predicate Delivers(tr: seq<State>, ops: seq<Op>) {
    |tr| == |ops| + 1 && forall i | 0 <= i < |ops| :: Applied(tr[i], ops[i], tr[i + 1])
  }

  /** No apply of the run reported PendingBoundExceeded. */
  ghost predicate NoneRefused(tr: seq<State>, ops: seq<Op>)
    requires |tr| == |ops| + 1
  {
    forall i | 0 <= i < |ops| :: Diagnose(PendingBoundExceeded, Some(ops[i])) !in ApplyOutputs(tr[i], ops[i])
  }

  function Last(tr: seq<State>): State
    requires tr != []
  {
    tr[|tr| - 1]
  }

  /** The valid operations above the floor. */
  function Counted(floor: map<string, int>, ops: seq<Op>): set<Op> {
    set op | op in ops && Valid(op) && op.seqNo > At(floor, op.origin)
  }

  /** The least variant of every identity. */
  ghost function Winners(seen: set<Op>): set<Op> {
    set op | op in seen && forall x | x in seen && KeyOf(x) == KeyOf(op) :: x == op || VariantLess(op, x)
  }

  ghost predicate LeastClosed(floor: map<string, int>, seen: set<Op>, S: set<Key>) {
    ClosedUnder(floor, seen, S) && forall T: set<Key> | ClosedUnder(floor, seen, T) :: S <= T
  }

  /** No losing variant is forced by the closure of the winners while its
      identity is outside that closure. */
  ghost predicate Settled(floor: map<string, int>, seen: set<Op>) {
    forall S: set<Key> | LeastClosed(floor, Winners(seen), S) :: ClosedUnder(floor, seen, S)
  }

  ghost predicate AgreeOnDeps(seen: set<Op>) {
    forall x, y | x in seen && y in seen && KeyOf(x) == KeyOf(y) :: x.deps == y.deps
  }

  /* ---------- Runs and what they have seen ---------- */

  lemma ApplyExtendsSeen(s: State, seen: set<Op>, op: Op, t: State)
    requires Inv(s, seen) && !s.sealed && !s.closed && Applied(s, op, t)
    requires Diagnose(PendingBoundExceeded, Some(op)) !in ApplyOutputs(s, op)
    ensures Inv(t, seen + Counted(s.floor, [op]))
    ensures t == s.(ops := t.ops, integrated := t.integrated, clock := t.clock, equivocated := t.equivocated)
  {
    hide Inv, LeastOver, ClockMatches, CrdtClock.Valid, VariantLess, Ready;
    ApplyKeepsInv(s, seen, op, t);
    FiledKeeps(s, op);
    assert Refused(s, op) ==> ApplyOutputs(s, op) == [Diagnose(PendingBoundExceeded, Some(op))];
    assert SeenAfter(s, seen, op) == seen + Counted(s.floor, [op]);
  }

  lemma DeliveryPrefix(tr: seq<State>, ops: seq<Op>, n: nat)
    requires Delivers(tr, ops) && n <= |ops|
    ensures Delivers(tr[..n + 1], ops[..n])
    ensures NoneRefused(tr, ops) ==> NoneRefused(tr[..n + 1], ops[..n])
  {
    hide Applied, ApplyOutputs;
    var t, o := tr[..n + 1], ops[..n];
    forall i | 0 <= i < n ensures Applied(t[i], o[i], t[i + 1]) {
      assert Applied(tr[i], ops[i], tr[i + 1]);
    }
    if NoneRefused(tr, ops) {
      forall i | 0 <= i < n ensures Diagnose(PendingBoundExceeded, Some(o[i])) !in ApplyOutputs(t[i], o[i]) {
        assert Diagnose(PendingBoundExceeded, Some(ops[i])) !in ApplyOutputs(tr[i], ops[i]);
      }
    }
  }

  lemma {:induction false} DeliveryExtendsSeen(tr: seq<State>, ops: seq<Op>, seen: set<Op>)
    requires Delivers(tr, ops) && NoneRefused(tr, ops) && Inv(tr[0], seen) && !tr[0].sealed && !tr[0].closed
    ensures Inv(Last(tr), seen + Counted(tr[0].floor, ops))
    ensures var s, t := tr[0], Last(tr);
      t == s.(ops := t.ops, integrated := t.integrated, clock := t.clock, equivocated := t.equivocated)
    decreases |ops|
  {
    hide Inv, Applied, ApplyOutputs, Valid;
    if ops == [] {
      assert seen + Counted(tr[0].floor, ops) == seen;
    } else {
      var n := |ops| - 1;
      var before := ops[..n];
      DeliveryPrefix(tr, ops, n);
      DeliveryExtendsSeen(tr[..n + 1], before, seen);
      ApplyExtendsSeen(tr[n], seen + Counted(tr[0].floor, before), ops[n], tr[n + 1]);
      assert ops == before + [ops[n]];
      assert Counted(tr[0].floor, ops) == Counted(tr[0].floor, before) + Counted(tr[0].floor, [ops[n]]);
      assert seen + Counted(tr[0].floor, ops) == seen + Counted(tr[0].floor, before) + Counted(tr[0].floor, [ops[n]]);
    }
  }

  lemma StartInv(maxPending: nat, bootstrap: Option<Bootstrap>)
    ensures var s := Start(maxPending, bootstrap);
      Inv(s, {}) && !s.sealed && !s.closed && s.maxPending == maxPending && s.ops == map[] && s.integrated == {}
      && s.bootstrap == Start(0, bootstrap).bootstrap && s.floor == s.clock == Start(0, bootstrap).floor
  {
    NewInv(maxPending);
    if bootstrap.Some? { InstallKeepsInv(New(maxPending), {}, bootstrap.value); }
  }

  /* ---------- The declarative state ---------- */

  lemma StoredAreWinners(s: State, seen: set<Op>, op: Op)
    requires StoresWinners(s.floor, s.ops, seen)
    ensures op in Winners(seen) <==> op in seen && s.ops[KeyOf(op)] == op
  {
    if op in seen {
      var w := s.ops[KeyOf(op)];
      if w == op {
        forall x | x in seen && KeyOf(x) == KeyOf(op) ensures x == op || VariantLess(op, x) { }
      } else if op in Winners(seen) {
        assert VariantLess(w, op) && VariantLess(op, w);
        VariantAsymmetric(w, op);
      }
    }
  }

  lemma ClosedOverWinners(s: State, seen: set<Op>, S: set<Key>)
    requires StoresWinners(s.floor, s.ops, seen)
    ensures ClosedOver(s.floor, s.ops, S) <==> ClosedUnder(s.floor, Winners(seen), S)
  {
    forall op ensures op in Winners(seen) <==> op in seen && s.ops[KeyOf(op)] == op {
      StoredAreWinners(s, seen, op);
    }
    if ClosedUnder(s.floor, Winners(seen), S) {
      forall k | k in s.ops && Prerequisites(s.floor, s.ops[k]) <= S ensures k in S {
        assert s.ops[k] in Winners(seen);
      }
    }
  }

  lemma {:induction false} ClosureExists(floor: map<string, int>, seen: set<Op>, base: set<Key>, todo: set<Op>) returns (S: set<Key>)
    requires todo == set op | op in seen && KeyOf(op) !in base
    requires forall T: set<Key> | ClosedUnder(floor, seen, T) :: base <= T
    ensures LeastClosed(floor, seen, S)
    decreases todo
  {
    if op :| op in seen && Prerequisites(floor, op) <= base && KeyOf(op) !in base {
      var rest := set x | x in seen && KeyOf(x) !in base + {KeyOf(op)};
      assert op in todo && op !in rest && rest <= todo;
      S := ClosureExists(floor, seen, base + {KeyOf(op)}, rest);
    } else {
      S := base;
    }
  }

  lemma WinnersClosureExists(floor: map<string, int>, seen: set<Op>) returns (S: set<Key>)
    ensures LeastClosed(floor, Winners(seen), S)
  {
    S := ClosureExists(floor, Winners(seen), {}, set op | op in Winners(seen) && KeyOf(op) !in {});
  }

  /** A settled replica has integrated exactly the least causal fixpoint of the
      winners. */
  lemma SettledIntegrates(s: State, seen: set<Op>, S: set<Key>)
    requires Inv(s, seen) && Settled(s.floor, seen) && LeastClosed(s.floor, Winners(seen), S)
    ensures s.integrated == S
  {
    ClosedOverWinners(s, seen, s.integrated);
    assert ClosedUnder(s.floor, seen, S);
  }

  lemma AgreeingDepsSettle(floor: map<string, int>, seen: set<Op>)
    requires AgreeOnDeps(seen)
    ensures Settled(floor, seen)
  {
    forall S: set<Key> | LeastClosed(floor, Winners(seen), S) ensures ClosedUnder(floor, seen, S) {
      forall op | op in seen && Prerequisites(floor, op) <= S ensures KeyOf(op) in S {
        var w := WinnerExists(seen, op);
        assert Prerequisites(floor, w) == Prerequisites(floor, op);
      }
    }
  }

  lemma {:induction false} WinnerExists(seen: set<Op>, op: Op) returns (w: Op)
    requires op in seen
    ensures w in Winners(seen) && KeyOf(w) == KeyOf(op)
  {
    var rivals := set x | x in seen && KeyOf(x) == KeyOf(op);
    w := LeastVariant(rivals, op);
  }

  lemma {:induction false} LeastVariant(rivals: set<Op>, op: Op) returns (w: Op)
    requires op in rivals && forall x | x in rivals :: KeyOf(x) == KeyOf(op)
    ensures w in rivals && forall x | x in rivals :: x == w || VariantLess(w, x)
    decreases rivals
  {
    w := op;
    if rivals != {op} {
      assert rivals - {op} != {};
      var x :| x in rivals - {op};
      var v := LeastVariant(rivals - {op}, x);
      VariantTrichotomy(op, v);
      if VariantLess(v, op) {
        w := v;
      } else {
        forall y | y in rivals - {op} && y != v ensures VariantLess(op, y) { VariantTransitive(op, v, y); }
      }
    }
  }

  /** The winners are determined by what was seen. */
  lemma SameWinners(s: State, t: State, seen: set<Op>)
    requires StoresWinners(s.floor, s.ops, seen) && StoresWinners(t.floor, t.ops, seen)
    ensures s.ops == t.ops
  {
    forall k | k in s.ops ensures k in t.ops && s.ops[k] == t.ops[k] {
      StoredAreWinners(s, seen, s.ops[k]);
      StoredAreWinners(t, seen, s.ops[k]);
    }
    assert forall k | k in t.ops :: KeyOf(t.ops[k]) in s.ops;
  }

  lemma SameSeenSameState(s: State, t: State, seen: set<Op>)
    requires Inv(s, seen) && Inv(t, seen) && s.floor == t.floor && Settled(s.floor, seen)
    ensures s.clock == t.clock && s.ops == t.ops && s.integrated == t.integrated && s.equivocated == t.equivocated
  {
    SameWinners(s, t, seen);
    var S := WinnersClosureExists(s.floor, seen);
    SettledIntegrates(s, seen, S);
    SettledIntegrates(t, seen, S);
    ClockDetermined(s.floor, s.clock, t.clock, S);
    assert forall k :: k in s.equivocated <==> SeenBesides(s.ops, seen, k);
  }

  /** Convergence: two replicas that start from the same optional bootstrap,
      with any bounds, and are delivered the same settled operations in any
      order with any repetition end with equal clocks, operations and
      equivocations, unless an operation was refused for lack of room. */
  lemma Convergence(bootstrap: Option<Bootstrap>, a: seq<State>, opsA: seq<Op>, b: seq<State>, opsB: seq<Op>)
    requires Delivers(a, opsA) && NoneRefused(a, opsA) && a[0] == Start(a[0].maxPending, bootstrap)
    requires Delivers(b, opsB) && NoneRefused(b, opsB) && b[0] == Start(b[0].maxPending, bootstrap)
    requires Counted(a[0].floor, opsA) == Counted(b[0].floor, opsB) && Settled(a[0].floor, Counted(a[0].floor, opsA))
    ensures Last(a).clock == Last(b).clock
    ensures Operations(Last(a)) == Operations(Last(b)) && Equivocations(Last(a)) == Equivocations(Last(b))
    ensures LeastClosed(a[0].floor, Winners(Counted(a[0].floor, opsA)), Last(a).integrated)
  {
    hide Inv, NoneRefused, Applied, Settled, Counted, Winners, LeastClosed, Start, Sorted;
    StartInv(a[0].maxPending, bootstrap);
    StartInv(b[0].maxPending, bootstrap);
    DeliveryExtendsSeen(a, opsA, {});
    DeliveryExtendsSeen(b, opsB, {});
    var seen := Counted(a[0].floor, opsA);
    assert {} + seen == seen;
    SameSeenSameState(Last(a), Last(b), seen);
    var S := WinnersClosureExists(a[0].floor, seen);
    SettledIntegrates(Last(a), seen, S);
  }

  /** The common case: operations of one identity name the same dependencies,
      payloads may differ. */
  lemma ConvergenceOfAgreeingDeps(bootstrap: Option<Bootstrap>, a: seq<State>, opsA: seq<Op>, b: seq<State>, opsB: seq<Op>)
    requires Delivers(a, opsA) && NoneRefused(a, opsA) && a[0] == Start(a[0].maxPending, bootstrap)
    requires Delivers(b, opsB) && NoneRefused(b, opsB) && b[0] == Start(b[0].maxPending, bootstrap)
    requires (forall op :: op in opsA <==> op in opsB) && AgreeOnDeps(set op | op in opsA)
    ensures Last(a).clock == Last(b).clock
    ensures Operations(Last(a)) == Operations(Last(b)) && Equivocations(Last(a)) == Equivocations(Last(b))
  {
    assert a[0].floor == b[0].floor;
    assert Counted(a[0].floor, opsA) == Counted(b[0].floor, opsB);
    AgreeingDepsSettle(a[0].floor, Counted(a[0].floor, opsA));
    Convergence(bootstrap, a, opsA, b, opsB);
  }
}
