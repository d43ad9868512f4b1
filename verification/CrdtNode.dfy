/** The mailbox object, its fields updated in place. */
module CrdtNode {
  import opened Wrappers
  import opened Orders
  import opened CrdtClock
  import opened CrdtSpec

  class Node {
    const maxPending: nat
    var clock: map<string, int>
    var floor: map<string, int>
    var bootstrap: Option<Bootstrap>
    var ops: map<Key, Op>
    var integrated: set<Key>
    var equivocated: set<Key>
    var sealed: bool
    var closed: bool
    var error: Option<Error>
    /** Every operation accepted so far. */
    ghost var seen: set<Op>

    function Value(): State
      reads this
    {
      State(maxPending, clock, floor, bootstrap, ops, integrated, equivocated, sealed, closed, error)
    }

    ghost predicate Valid()
      reads this
    {
      Inv(Value(), seen)
    }

    constructor (maxPending: nat)
      ensures Valid() && Value() == New(maxPending) && seen == {}
    {
      this.maxPending := maxPending;
      clock, floor, bootstrap, ops := map[], map[], None, map[];
      integrated, equivocated, sealed, closed, error := {}, {}, false, false, None;
      seen := {};
      new;
      NewInv(maxPending);
    }

    /** Integrates batches of ready operations until none is left. */
    method Drain()
      requires ClockMatches(floor, clock, integrated) && integrated <= ops.Keys
      requires StoresWinners(floor, ops, seen)
      modifies `integrated, `clock
      ensures Drained(old(Value()), Value())
    {
      ghost var base := integrated;
      while true
        invariant ClockMatches(floor, clock, integrated) && integrated <= ops.Keys
        invariant ForcedOver(floor, ops, base, integrated)
        decreases ops.Keys - integrated
      {
        var ready := set k | k in ops && k !in integrated && CrdtClock.Ready(clock, ops[k]);
        NotReadyIsClosed(floor, clock, ops, base, integrated, ready);
        hide *;
        if ready == {} { return; }
        Integrate(ready);
      }
    }

    /** One batch, all of it ready when the batch was taken. */
    method Integrate(ready: set<Key>)
      requires ClockMatches(floor, clock, integrated)
      requires forall k | k in ready ::
        k in ops && k !in integrated && KeyOf(ops[k]) == k && CrdtClock.Ready(clock, ops[k])
        && k.origin != "" && k.seqNo > At(floor, k.origin)
      modifies `integrated, `clock
      ensures integrated == old(integrated) + ready
      ensures ClockMatches(floor, clock, integrated)
    {
      forall k | k in ready ensures k.seqNo == At(clock, k.origin) + 1 {
        assert Key(k.origin, k.seqNo) !in integrated;
      }
      hide ClockMatches, CrdtClock.Valid, CrdtClock.Ready;
      var todo := ready;
      while todo != {}
        invariant todo <= ready && integrated == old(integrated) + (ready - todo)
        invariant ClockMatches(floor, clock, integrated)
        invariant forall k | k in todo :: k.seqNo == At(clock, k.origin) + 1
        decreases todo
      {
        var k := First(todo);
        var op := ops[k];
        AdvanceClock(floor, clock, integrated, k);
        integrated := integrated + {k};
        clock := clock[op.origin := Max(At(clock, op.origin), op.seqNo)];
        todo := todo - {k};
      }
    }

    method Apply(op: Op) returns (out: seq<Output>)
      requires Valid()
      modifies this
      ensures Valid() && Applied(old(Value()), op, Value())
      ensures out == ApplyOutputs(old(Value()), op)
      ensures seen == SeenAfter(old(Value()), old(seen), op)
    {
      UnfiledIsApplied(Value(), seen, op);
      if sealed || closed {
        out := [Diagnose(ApplyAfterTerminal, Some(op))];
      } else if !CrdtClock.Valid(op) {
        out := [Diagnose(InvalidOperation, Some(op))];
      } else if op.seqNo <= At(floor, op.origin) {
        out := [];
      } else {
        out := Admit(op);
      }
    }

    /** The rest of an apply, for an operation that passed the checks. */
    method Admit(op: Op) returns (out: seq<Output>)
      requires Valid() && Admissible(Value(), op)
      modifies this
      ensures Valid() && Applied(old(Value()), op, Value())
      ensures out == ApplyOutputs(old(Value()), op)
      ensures seen == SeenAfter(old(Value()), old(seen), op)
    {
      hide VariantLess, CrdtClock.Valid, ClockMatches, StoresWinners, MarksEquivocations, Forced, ClosedOver, LeastOver;
      out := [];
      ghost var s := Value();
      UnfiledIsApplied(s, seen, op);
      var k := KeyOf(op);
      if k in ops {
        var previous := ops[k];
        if previous == op { return; }
        FiledVariant(s, op);
        if k !in equivocated { out := [Diagnose(Equivocation, Some(op))]; }
        equivocated := equivocated + {k};
        if VariantLess(op, previous) { ops := ops[k := op]; }
        Settle(s, op);
      } else {
        if !Ready(clock, op) && |ops| - |integrated| >= maxPending {
          return [Diagnose(PendingBoundExceeded, Some(op))];
        }
        ops := ops[k := op];
        Settle(s, op);
      }
    }

    /** Drains after filing `op`, which was applied in state `s`. */
    method Settle(ghost s: State, ghost op: Op)
      requires Inv(s, seen) && Admissible(s, op) && !Refused(s, op) && Value() == Filed(s, op)
      modifies this`integrated, this`clock, this`seen
      ensures Applied(s, op, Value()) && seen == SeenAfter(s, old(seen), op) && Valid()
    {
      hide CrdtClock.Valid, VariantLess, MarksEquivocations, Forced, ClosedOver, StoresWinners, ClockMatches, LeastOver,
        FloorIsBootstrap, Filed, Refused, CrdtClock.Ready;
      FiledStoresWinners(s, seen, op);
      FiledKeeps(s, op);
      ghost var before := seen;
      seen := seen + {op};
      Drain();
      ApplyKeepsInv(s, before, op, Value());
    }

    method Install(b: Bootstrap) returns (out: seq<Output>)
      requires Valid()
      modifies `floor, `clock, `bootstrap
      ensures Valid() && Value() == Installed(old(Value()), b)
      ensures out == InstallOutputs(old(Value()), b)
    {
      InstallKeepsInv(Value(), seen, b);
      if sealed || closed { return [Diagnose(ApplyAfterTerminal, None)]; }
      var parsed := ClockMap(b.clock);
      if parsed.None? { return [Diagnose(InvalidOperation, None)]; }
      if bootstrap == Some(b) { return []; }
      if bootstrap.Some? || ops != map[] { return [Diagnose(BootstrapConflict, None)]; }
      floor := parsed.value;
      clock := parsed.value;
      bootstrap := Some(b);
      out := [];
    }

    method Handle(input: Input) returns (out: seq<Output>)
      requires Valid()
      modifies this
      ensures Valid() && Step(old(Value()), input, Value())
      ensures out == Outputs(old(Value()), input)
      ensures seen == SeenAfterInput(old(Value()), old(seen), input)
    {
      out := [];
      match input
      case Apply(op) => out := Apply(op);
      case InstallBootstrap(b) => out := Install(b);
      case Seal => if !closed { sealed := true; }
      case Close(e) => if !closed { closed := true; error := e; }
      case Read(q) => out := [Response(ReadOf(Value(), q))];
    }
  }

  function Max(a: int, b: int): int { if a > b then a else b }
}
