/** What each input of the CRDT engine does and sends, case by case, in terms of
    the fields alone. */
module CrdtOutcomes {
  import opened Wrappers
  import opened Orders
  import opened CrdtClock
  import opened CrdtSpec
  import opened CrdtOrder
  import opened CrdtCatchUp

  /** A clock's reading for an origin. */
  function Reading(clock: map<string, int>, origin: string): int { if origin in clock then clock[origin] else 0 }

  /* ---------- Clocks and operations ---------- */

  /** A clock is well formed exactly when its entries are named, positive and
      strictly ascending by origin; it then reads what its entries say. */
  lemma ClockParses(c: Clock)
    ensures ParseClock(c).Some? <==>
      (forall i | 0 <= i < |c| :: c[i].origin != "" && c[i].seqNo > 0)
      && forall i, j | 0 <= i < j < |c| :: StringPrecedes(c[i].origin, c[j].origin)
    ensures ParseClock(c).Some? ==>
      (forall i | 0 <= i < |c| :: Reading(ParseClock(c).value, c[i].origin) == c[i].seqNo)
      && forall o | o in ParseClock(c).value :: exists i :: 0 <= i < |c| && c[i].origin == o
  {
    forall i, j | 0 <= i < j < |c|
      ensures StringLess(c[i].origin, c[j].origin) <==> StringPrecedes(c[i].origin, c[j].origin)
    {
      StringLessExactly(c[i].origin, c[j].origin);
    }
    hide StringLess, StringPrecedes, Entries;
    if WellFormed(c) { EntriesAt(c); }
  }

  /** An operation is valid exactly when it has an origin and a positive number,
      its dependencies are a well-formed clock, and none is itself or later. */
  lemma ValidExactly(op: Op)
    ensures Valid(op) <==>
      op.origin != "" && op.seqNo > 0 && ParseClock(op.deps).Some?
      && forall i | 0 <= i < |op.deps| && op.deps[i].origin == op.origin :: op.deps[i].seqNo < op.seqNo
  {
    hide StringLess, Entries;
    if WellFormed(op.deps) { EntriesAt(op.deps); }
  }

  /** The predecessor and every dependency are covered by the clock. */
  ghost predicate Covered(clock: map<string, int>, op: Op) {
    op.seqNo - 1 <= Reading(clock, op.origin)
    && forall i | 0 <= i < |op.deps| :: op.deps[i].seqNo <= Reading(clock, op.deps[i].origin)
  }

  lemma ReadyIsCovered(clock: map<string, int>, op: Op)
    ensures Ready(clock, op) <==> Covered(clock, op)
  {
    forall i | 0 <= i < |op.deps| ensures op.deps[i] in op.deps { }
  }

  /* ---------- Applying ---------- */

  lemma UnchangedDrain(s: State, seen: set<Op>, t: State)
    requires Inv(s, seen) && Drained(s, t)
    ensures t == s
  {
    hide StoresWinners, MarksEquivocations, FloorIsBootstrap, Forced;
    assert LeastOver(s.floor, s.ops, s.integrated, s.integrated);
    LeastUnique(s.floor, s.ops, s.integrated, s.integrated, t.integrated);
    ClockDetermined(s.floor, s.clock, t.clock, s.integrated);
  }

  /** Every apply: what is refused or dropped and how it is reported, and what
      becomes of the table otherwise. */
  lemma ApplyOutcomes(s: State, seen: set<Op>, op: Op, t: State)
    requires Inv(s, seen) && Applied(s, op, t)
    ensures var k, out, named := Key(op.origin, op.seqNo), ApplyOutputs(s, op), (Some(op.origin), Some(op.seqNo));
      if s.sealed || s.closed then t == s && out == [Diagnostic(Warn, ApplyAfterTerminal, named.0, named.1)]
      else if !Valid(op) then t == s && out == [Diagnostic(Fault, InvalidOperation, named.0, named.1)]
      else if op.seqNo <= Reading(s.floor, op.origin) then t == s && out == []
      else if k in s.ops && s.ops[k] == op then t == s && out == []
      else if k in s.ops then
        && t.ops.Keys == s.ops.Keys && (forall j | j in s.ops && j != k :: t.ops[j] == s.ops[j])
        && t.ops[k] == (if VariantPrecedes(op, s.ops[k]) then op else s.ops[k])
        && t.equivocated == s.equivocated + {k}
        && out == if k in s.equivocated then [] else [Diagnostic(Fault, Equivocation, named.0, named.1)]
      else if !Covered(s.clock, op) && |s.ops| - |s.integrated| >= s.maxPending then
        t == s && out == [Diagnostic(Fault, PendingBoundExceeded, named.0, named.1)]
      else t.ops == s.ops[k := op] && t.equivocated == s.equivocated && out == []
  {
    FiledOutcomes(s, op);
    hide Valid, VariantPrecedes, Covered, Inv, LeastOver, ClockMatches, Filed, ApplyOutputs;
    assert t.ops == Filed(s, op).ops && t.equivocated == Filed(s, op).equivocated;
    if Filed(s, op) == s { UnchangedDrain(s, seen, t); }
  }

  lemma FiledOutcomes(s: State, op: Op)
    ensures var k, out, named, t := Key(op.origin, op.seqNo), ApplyOutputs(s, op), (Some(op.origin), Some(op.seqNo)), Filed(s, op);
      if s.sealed || s.closed then t == s && out == [Diagnostic(Warn, ApplyAfterTerminal, named.0, named.1)]
      else if !Valid(op) then t == s && out == [Diagnostic(Fault, InvalidOperation, named.0, named.1)]
      else if op.seqNo <= Reading(s.floor, op.origin) then t == s && out == []
      else if k in s.ops && s.ops[k] == op then t == s && out == []
      else if k in s.ops then
        && t.ops.Keys == s.ops.Keys && (forall j | j in s.ops && j != k :: t.ops[j] == s.ops[j])
        && t.ops[k] == (if VariantPrecedes(op, s.ops[k]) then op else s.ops[k])
        && t.equivocated == s.equivocated + {k}
        && out == if k in s.equivocated then [] else [Diagnostic(Fault, Equivocation, named.0, named.1)]
      else if !Covered(s.clock, op) && |s.ops| - |s.integrated| >= s.maxPending then
        t == s && out == [Diagnostic(Fault, PendingBoundExceeded, named.0, named.1)]
      else t.ops == s.ops[k := op] && t.equivocated == s.equivocated && out == []
  {
    ReadyIsCovered(s.clock, op);
    if Stored(s, op) { VariantLessExactly(op, s.ops[KeyOf(op)]); }
    hide Valid, VariantLess, VariantPrecedes, Ready, Covered;
  }

  /** Afterwards exactly the identities up to the clock are integrated; whatever
      is stored with its predecessor and dependencies covered is; and whatever
      became integrated has its own covered. */
  lemma IntegratesExactly(s: State, seen: set<Op>, op: Op, t: State)
    requires Inv(s, seen) && Applied(s, op, t)
    ensures forall o: string, n: int :: Key(o, n) in t.integrated <==> Reading(t.floor, o) < n <= Reading(t.clock, o)
    ensures forall k | k in t.ops && Covered(t.clock, t.ops[k]) :: k in t.integrated
    ensures forall k | k in t.integrated && k !in s.integrated :: k in t.ops && Covered(t.clock, t.ops[k])
  {
    ApplyKeepsInv(s, seen, op, t);
    var seen' := SeenAfter(s, seen, op);
    FiledKeeps(s, op);
    InvClock(t, seen');
    forall k | k in t.ops && Covered(t.clock, t.ops[k]) ensures k in t.integrated { CoveredIsIntegrated(t, seen', k); }
    forall k | k in t.integrated && k !in s.integrated ensures k in t.ops && Covered(t.clock, t.ops[k]) {
      LeastIsForced(t.floor, t.ops, s.integrated, t.integrated, k);
      PrerequisitesCovered(t, seen', k);
    }
    forall o: string, n: int ensures Key(o, n) in t.integrated <==> Reading(t.floor, o) < n <= Reading(t.clock, o) {
      assert At(t.floor, o) == Reading(t.floor, o) && At(t.clock, o) == Reading(t.clock, o);
    }
  }

  lemma CoveredIsIntegrated(t: State, seen: set<Op>, k: Key)
    requires Inv(t, seen) && k in t.ops && Covered(t.clock, t.ops[k])
    ensures k in t.integrated
  {
    hide VariantLess, MarksEquivocations, FloorIsBootstrap, Forced;
    ReadyIsCovered(t.clock, t.ops[k]);
    ReadyIffPrerequisites(t.floor, t.clock, t.integrated, t.ops[k]);
  }

  lemma PrerequisitesCovered(t: State, seen: set<Op>, k: Key)
    requires Inv(t, seen) && k in t.ops && Prerequisites(t.floor, t.ops[k]) <= t.integrated
    ensures Covered(t.clock, t.ops[k])
  {
    hide VariantLess, MarksEquivocations, FloorIsBootstrap, Forced;
    ReadyIffPrerequisites(t.floor, t.clock, t.integrated, t.ops[k]);
    ReadyIsCovered(t.clock, t.ops[k]);
  }

  /** What a least closed set adds has its prerequisites in the set. */
  lemma LeastIsForced(floor: map<string, int>, ops: map<Key, Op>, base: set<Key>, S: set<Key>, k: Key)
    requires LeastOver(floor, ops, base, S) && base <= ops.Keys && k in S && k !in base
    ensures k in ops && Prerequisites(floor, ops[k]) <= S
  {
    DrainStaysStored(floor, ops, base, S);
    hide Prerequisites;
    var T := S - {k};
    assert base <= T && !(S <= T);
    assert !(Prerequisites(floor, ops[k]) <= S) ==> ClosedOver(floor, ops, T);
  }

  /* ---------- The other inputs ---------- */

  /** A bootstrap sets floor and clock of an empty live mailbox; otherwise
      nothing changes and the reason is reported. */
  lemma InstallOutcomes(s: State, b: Bootstrap)
    ensures var t, out := Installed(s, b), InstallOutputs(s, b);
      if s.sealed || s.closed then t == s && out == [Diagnostic(Warn, ApplyAfterTerminal, None, None)]
      else if ParseClock(b.clock).None? then t == s && out == [Diagnostic(Fault, InvalidOperation, None, None)]
      else if s.bootstrap == Some(b) then t == s && out == []
      else if s.bootstrap.Some? || s.ops != map[] then t == s && out == [Diagnostic(Fault, BootstrapConflict, None, None)]
      else
        out == [] && t == s.(floor := ParseClock(b.clock).value, clock := ParseClock(b.clock).value, bootstrap := Some(b))
  {
  }

  /** Sealing and closing set their flags once; after a close neither does
      anything. Reading changes nothing. */
  lemma EndsOnce(s: State, input: Input, t: State)
    requires Step(s, input, t) && (input.Seal? || input.Close? || input.Read?)
    ensures s.closed || input.Read? ==> t == s
    ensures input.Seal? && !s.closed ==> t == s.(sealed := true)
    ensures input.Close? && !s.closed ==> t == s.(closed := true, error := input.error)
    ensures !input.Read? ==> Outputs(s, input) == []
    ensures input.Read? ==> Outputs(s, input) == [Response(ReadOf(s, input.request))]
  {
    hide ReadOf;
  }

  /** Operations are listed each once, by origin and then by number. */
  lemma ListingAscends(s: State, seen: set<Op>, keys: set<Key>)
    requires Inv(s, seen) && keys <= s.ops.Keys
    ensures var ops := Listing(s, keys);
      && |ops| == |keys| && (forall op :: op in ops <==> exists k :: k in keys && s.ops[k] == op)
      && forall i, j | 0 <= i < j < |ops| ::
           StringPrecedes(ops[i].origin, ops[j].origin) || (ops[i].origin == ops[j].origin && ops[i].seqNo < ops[j].seqNo)
  {
    KeyOrder();
    ListingElements(s, keys);
    var sorted := Sorted(KeyLess, keys);
    CollectAt(s.ops, sorted);
    StoredKeys(s, seen);
    var ops := Listing(s, keys);
    hide KeyLess, StringPrecedes, Inv, Listing;
    forall i, j | 0 <= i < j < |ops|
      ensures StringPrecedes(ops[i].origin, ops[j].origin) || (ops[i].origin == ops[j].origin && ops[i].seqNo < ops[j].seqNo)
    {
      assert sorted[i] in keys && sorted[j] in keys && KeyLess(sorted[i], sorted[j]);
      KeyLessExactly(sorted[i], sorted[j]);
    }
  }

  lemma StoredKeys(s: State, seen: set<Op>)
    requires Inv(s, seen)
    ensures forall k | k in s.ops :: Key(s.ops[k].origin, s.ops[k].seqNo) == k
  {
    hide VariantLess, Valid;
  }

  lemma {:induction false} CollectAt(ops: map<Key, Op>, keys: seq<Key>)
    requires forall k | k in keys :: k in ops
    ensures |Collect(ops, keys)| == |keys| && forall i | 0 <= i < |keys| :: keys[i] in ops && Collect(ops, keys)[i] == ops[keys[i]]
    decreases |keys|
  {
    if keys != [] {
      assert keys[0] in keys && keys == [keys[0]] + keys[1..];
      CollectAt(ops, keys[1..]);
    }
  }

  /** The position a read without a cursor has is the start. */
  function Start(q: ReadRequest): Option<map<string, int>> { if q.cursor.None? then Some(map[]) else ParseClock(q.cursor.value) }

  /** Every read: whom it answers and with which state; an answer without
      operations or bootstrap says how the mailbox ended, if it did. */
  lemma ReadOutcomes(s: State, seen: set<Op>, q: ReadRequest)
    requires Inv(s, seen)
    ensures var r := ReadOf(s, q);
      && r.crdtId == q.crdtId && r.streamId == q.streamId && ParseClock(r.nextCursor) == Some(s.clock)
      && (r.state == Failed <==> r.error.Some?)
      && (r.state == InvalidCursor ==> r.ops == [] && r.bootstrap.None?)
      && (r.state in {Data, BootstrapRequired} ==> r.ops != [] || r.bootstrap.Some?)
      && (r.state !in {Data, BootstrapRequired, InvalidCursor} ==>
            r.ops == [] && r.bootstrap.None? && r.error == (if s.closed then s.error else None)
            && r.state == if s.closed && s.error.Some? then Failed
                          else if s.closed then ReadState.Closed
                          else if s.sealed then Eof
                          else Empty)
  {
    InvClock(s, seen);
    ClockValueParses(s.clock);
    AnswerAt(s, q);
    hide *;
  }

  function Base(s: State, q: ReadRequest, behind: bool): map<string, int>
    requires Start(q).Some?
  {
    if behind then s.floor else Start(q).value
  }

  ghost predicate Behind(s: State, q: ReadRequest)
    requires Start(q).Some?
  {
    q.cursor.Some? && BehindFloor(s, Start(q).value)
  }

  /** The answer to any read, its operations left as a listing. */
  lemma AnswerAt(s: State, q: ReadRequest)
    ensures ReadOf(s, q) ==
      if Start(q).None? || BeyondClock(s, Start(q).value) then
        ReadResponse(q.crdtId, q.streamId, None, [], ClockValue(s.clock), InvalidCursor, None)
      else
        var behind := Behind(s, q);
        var bootstrap := if behind || q.cursor.None? then s.bootstrap else None;
        var ops := Listing(s, Above(s, Base(s, q, behind)));
        ReadResponse(
          q.crdtId, q.streamId, bootstrap, ops, ClockValue(s.clock),
          if bootstrap.Some? || ops != [] then (if behind then BootstrapRequired else Data)
          else if s.closed && s.error.Some? then Failed
          else if s.closed then ReadState.Closed
          else if s.sealed then Eof
          else Empty,
          if (bootstrap.Some? || ops != []) || !s.closed then None else s.error)
  {
    hide Listing, Above, ClockValue, ParseClock;
    assert CursorOf(q) == Start(q);
  }

  /** A cursor is invalid exactly when it is malformed or beyond the clock. */
  lemma InvalidExactly(s: State, q: ReadRequest)
    ensures ReadOf(s, q).state == InvalidCursor <==>
      Start(q).None? || exists o :: o in Start(q).value && Start(q).value[o] > Reading(s.clock, o)
  {
    AnswerAt(s, q);
    if Start(q).Some? { WithinClock(s, Start(q).value); }
    hide ReadOf, Listing, Above, ClockValue, ParseClock;
  }

  /** What is sent to a valid cursor: the integrated operations beyond it, or all
      of them and the bootstrap when it lies behind the floor or is absent. */
  lemma ReadSends(s: State, seen: set<Op>, q: ReadRequest)
    requires Inv(s, seen) && Start(q).Some?
    requires forall o | o in Start(q).value :: Start(q).value[o] <= Reading(s.clock, o)
    ensures var r, cursor := ReadOf(s, q), Start(q).value;
      var behind := q.cursor.Some? && exists o :: o in s.floor && Reading(cursor, o) < s.floor[o];
      && (r.state == BootstrapRequired <==> behind)
      && (forall op :: op in r.ops <==>
            exists k :: k in s.integrated && k in s.ops && s.ops[k] == op && (behind || k.seqNo > Reading(cursor, k.origin)))
      && r.bootstrap == if behind || q.cursor.None? then s.bootstrap else None
  {
    var cursor, behind := Start(q).value, Behind(s, q);
    AnswerAt(s, q);
    InvClock(s, seen);
    WithinClock(s, cursor);
    ReadingsBehind(s, q);
    FloorNeedsBootstrap(s, seen);
    FloorSet(s, seen);
    AboveReading(s, cursor);
    ListingElements(s, Above(s, Base(s, q, behind)));
    hide *;
    if behind { assert Base(s, q, behind) == s.floor by { BaseIs(s, q, behind); } } else { BaseIs(s, q, behind); }
  }

  lemma BaseIs(s: State, q: ReadRequest, behind: bool)
    requires Start(q).Some?
    ensures Base(s, q, behind) == if behind then s.floor else Start(q).value
  {
  }

  lemma WithinClock(s: State, cursor: map<string, int>)
    ensures BeyondClock(s, cursor) <==> exists o :: o in cursor && cursor[o] > Reading(s.clock, o)
  {
    assert forall o :: At(s.clock, o) == Reading(s.clock, o);
  }

  lemma ReadingsBehind(s: State, q: ReadRequest)
    requires Start(q).Some?
    ensures Behind(s, q) <==> q.cursor.Some? && exists o :: o in s.floor && Reading(Start(q).value, o) < s.floor[o]
    ensures Behind(s, q) ==> s.floor != map[]
  {
    var cursor := Start(q).value;
    assert forall o :: At(cursor, o) == Reading(cursor, o);
  }

  lemma AboveReading(s: State, cursor: map<string, int>)
    ensures forall k :: k in Above(s, cursor) <==> k in s.integrated && k.seqNo > Reading(cursor, k.origin)
    ensures Above(s, cursor) <= s.integrated
  {
    assert forall o :: At(cursor, o) == Reading(cursor, o);
  }

  lemma FloorNeedsBootstrap(s: State, seen: set<Op>)
    requires Inv(s, seen)
    ensures s.bootstrap.None? ==> s.floor == map[]
  {
  }

  lemma FloorSet(s: State, seen: set<Op>)
    requires Inv(s, seen)
    ensures Above(s, s.floor) == s.integrated
  {
    hide StoresWinners, MarksEquivocations, Forced, ClosedOver, FloorIsBootstrap;
    forall k | k in s.integrated ensures k.seqNo > At(s.floor, k.origin) {
      assert Key(k.origin, k.seqNo) in s.integrated;
    }
  }
}
