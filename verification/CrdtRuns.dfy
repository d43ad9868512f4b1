/** What holds in every reachable state, and that draining in batches ends where
    draining one operation at a time does. */
module CrdtRuns {
  import opened Wrappers
  import opened Orders
  import opened CrdtClock
  import opened CrdtSpec

  /** The states before, between and after the inputs. */
  ghost predicate IsRun(tr: seq<State>, inputs: seq<Input>) {
    |tr| == |inputs| + 1 && forall i | 0 <= i < |inputs| :: Step(tr[i], inputs[i], tr[i + 1])
  }

  lemma {:induction false} RunKeepsInv(tr: seq<State>, inputs: seq<Input>, j: nat) returns (seen: set<Op>)
    requires IsRun(tr, inputs) && tr[0] == New(tr[0].maxPending) && j < |tr|
    ensures Inv(tr[j], seen) && tr[j].maxPending == tr[0].maxPending
    ensures forall i | 0 <= i <= j :: Below(tr[i].clock, tr[j].clock)
  {
    hide Inv, Step, SeenAfterInput;
    if j == 0 {
      NewInv(tr[0].maxPending);
      seen := {};
    } else {
      var before := RunKeepsInv(tr, inputs, j - 1);
      assert Step(tr[j - 1], inputs[j - 1], tr[j]);
      StepKeepsInv(tr[j - 1], before, inputs[j - 1], tr[j]);
      StepKeepsBound(tr[j - 1], inputs[j - 1], tr[j]);
      seen := SeenAfterInput(tr[j - 1], before, inputs[j - 1]);
      forall i | 0 <= i <= j ensures Below(tr[i].clock, tr[j].clock) {
        if i < j { assert Below(tr[i].clock, tr[j - 1].clock); }
      }
    }
  }

  lemma StepKeepsBound(s: State, input: Input, t: State)
    requires Step(s, input, t)
    ensures t.maxPending == s.maxPending
  {
    if input.Apply? { FiledKeeps(s, input.op); }
  }

  /** In every state of every run the integrated identities are exactly those
      between floor and clock, all of them stored; nothing held back is ready;
      the buffer is within its bound; and no clock was ever higher. */
  lemma ReachableStates(tr: seq<State>, inputs: seq<Input>, j: nat)
    requires IsRun(tr, inputs) && tr[0] == New(tr[0].maxPending) && j < |tr|
    ensures forall o: string, n: int ::
      Key(o, n) in tr[j].integrated <==> At(tr[j].floor, o) < n <= At(tr[j].clock, o)
    ensures tr[j].integrated <= tr[j].ops.Keys
    ensures forall k | k in tr[j].ops && k !in tr[j].integrated :: !Ready(tr[j].clock, tr[j].ops[k])
    ensures 0 <= Pending(tr[j]) <= tr[0].maxPending
    ensures forall i | 0 <= i <= j :: Below(tr[i].clock, tr[j].clock)
  {
    var seen := RunKeepsInv(tr, inputs, j);
    var s := tr[j];
    forall k | k in s.ops && k !in s.integrated ensures !Ready(s.clock, s.ops[k]) {
      ReadyIffPrerequisites(s.floor, s.clock, s.integrated, s.ops[k]);
    }
    CardinalityMonotone(s.integrated, s.ops.Keys);
  }

  /* ---------- Draining one operation at a time ---------- */

  /** Integrating the ready identity `k` alone. */
  function IntegrateOne(s: State, k: Key): State {
    s.(integrated := s.integrated + {k}, clock := s.clock[k.origin := k.seqNo])
  }

  predicate CanIntegrate(s: State, k: Key) {
    k in s.ops && k !in s.integrated && Ready(s.clock, s.ops[k])
  }

  /** `t` results from `s` by integrating `ks` one at a time until nothing is
      ready. */
  ghost predicate OneByOne(s: State, ks: seq<Key>, t: State)
    decreases |ks|
  {
    if ks == [] then t == s && forall k :: !CanIntegrate(s, k)
    else CanIntegrate(s, ks[0]) && OneByOne(IntegrateOne(s, ks[0]), ks[1..], t)
  }

  /** What integrating needs of the table. */
  ghost predicate Drainable(s: State) {
    && ClockMatches(s.floor, s.clock, s.integrated) && s.integrated <= s.ops.Keys
    && forall k | k in s.ops :: KeyOf(s.ops[k]) == k && k.origin != "" && k.seqNo > At(s.floor, k.origin)
  }

  lemma IntegrateOneKeeps(s: State, k: Key, base: set<Key>)
    requires Drainable(s) && CanIntegrate(s, k) && ForcedOver(s.floor, s.ops, base, s.integrated)
    ensures Drainable(IntegrateOne(s, k)) && ForcedOver(s.floor, s.ops, base, IntegrateOne(s, k).integrated)
  {
    assert Key(k.origin, k.seqNo) !in s.integrated;
    AdvanceClock(s.floor, s.clock, s.integrated, k);
    ReadyIffPrerequisites(s.floor, s.clock, s.integrated, s.ops[k]);
  }

  /** Whatever the order, one at a time reaches the fixpoint that `Drain`
      reaches in batches. */
  lemma {:induction false} OneByOneDrains(s: State, ks: seq<Key>, t: State, base: set<Key>)
    requires Drainable(s) && OneByOne(s, ks, t) && ForcedOver(s.floor, s.ops, base, s.integrated)
    ensures t == s.(integrated := t.integrated, clock := t.clock)
    ensures LeastOver(s.floor, s.ops, base, t.integrated) && ClockMatches(s.floor, t.clock, t.integrated)
    decreases |ks|
  {
    if ks == [] {
      forall k | k in s.ops && Prerequisites(s.floor, s.ops[k]) <= s.integrated ensures k in s.integrated {
        ReadyIffPrerequisites(s.floor, s.clock, s.integrated, s.ops[k]);
        assert !CanIntegrate(s, k);
      }
    } else {
      IntegrateOneKeeps(s, ks[0], base);
      OneByOneDrains(IntegrateOne(s, ks[0]), ks[1..], t, base);
    }
  }

  lemma {:induction false} OneByOneExists(s: State) returns (ks: seq<Key>, t: State)
    requires Drainable(s)
    ensures OneByOne(s, ks, t)
    decreases s.ops.Keys - s.integrated
  {
    if k :| CanIntegrate(s, k) {
      IntegrateOneKeeps(s, k, s.integrated);
      ks, t := OneByOneExists(IntegrateOne(s, k));
      ks := [k] + ks;
    } else {
      ks, t := [], s;
    }
  }

  /** The batch drain of an apply and any one-at-a-time drain end alike. */
  lemma BatchEqualsOneByOne(s: State, seen: set<Op>, op: Op, t: State, ks: seq<Key>, u: State)
    requires Inv(s, seen) && Applied(s, op, t) && OneByOne(Filed(s, op), ks, u)
    ensures t == u
  {
    FiledKeeps(s, op);
    FiledIsDrainable(s, seen, op);
    OneByOneDrains(Filed(s, op), ks, u, s.integrated);
    LeastUnique(s.floor, Filed(s, op).ops, s.integrated, t.integrated, u.integrated);
    ClockDetermined(s.floor, t.clock, u.clock, t.integrated);
  }

  lemma FiledIsDrainable(s: State, seen: set<Op>, op: Op)
    requires Inv(s, seen)
    ensures Drainable(Filed(s, op)) && ForcedOver(s.floor, Filed(s, op).ops, s.integrated, s.integrated)
  {
    FiledStoresWinners(s, seen, op);
    FiledKeeps(s, op);
  }

  lemma ApplyTotal(s: State, seen: set<Op>, op: Op) returns (t: State)
    requires Inv(s, seen)
    ensures Applied(s, op, t)
  {
    var ks;
    FiledKeeps(s, op);
    FiledIsDrainable(s, seen, op);
    ks, t := OneByOneExists(Filed(s, op));
    OneByOneDrains(Filed(s, op), ks, t, s.integrated);
  }
}
