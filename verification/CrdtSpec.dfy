/** The anti-entropy mailbox: causal buffering, equivocation winners, bootstrap
    floors and reads. */
module CrdtSpec {
  import opened Wrappers
  import opened Orders
  import opened CrdtClock

  datatype Bootstrap = Bootstrap(clock: Clock, state: Bytes)
  datatype ErrorCode = UnknownCrdt | ProducerError | Internal
  datatype Error = Error(code: ErrorCode, message: Option<string>)

  datatype DiagCode = ApplyAfterTerminal | InvalidOperation | Equivocation | BootstrapConflict | PendingBoundExceeded
  datatype Severity = Warn | Fault

  datatype ReadRequest = ReadRequest(crdtId: string, streamId: string, cursor: Option<Clock>)
  datatype ReadState = Data | Empty | Eof | Closed | Failed | BootstrapRequired | InvalidCursor
  datatype ReadResponse = ReadResponse(crdtId: string, streamId: string, bootstrap: Option<Bootstrap>, ops: seq<Op>,
                                       nextCursor: Clock, state: ReadState, error: Option<Error>)

  datatype Input = Apply(op: Op) | InstallBootstrap(bootstrap: Bootstrap) | Seal | Close(error: Option<Error>)
                 | Read(request: ReadRequest)
  datatype Output = Response(response: ReadResponse)
                  | Diagnostic(severity: Severity, code: DiagCode, origin: Option<string>, seqNo: Option<int>)

  datatype State = State(
    maxPending: nat,
    clock: map<string, int>,
    floor: map<string, int>,
    bootstrap: Option<Bootstrap>,
    ops: map<Key, Op>,
    integrated: set<Key>,
    equivocated: set<Key>,
    sealed: bool,
    closed: bool,
    error: Option<Error>)

  function New(maxPending: nat): State {
    State(maxPending, map[], map[], None, map[], {}, {}, false, false, None)
  }

  function Diagnose(code: DiagCode, op: Option<Op>): Output {
    Diagnostic(
      if code == ApplyAfterTerminal then Warn else Fault,
      code,
      if op.Some? then Some(op.value.origin) else None,
      if op.Some? then Some(op.value.seqNo) else None)
  }

  function Collect(ops: map<Key, Op>, keys: seq<Key>): seq<Op> {
    if keys == [] then []
    else (if keys[0] in ops then [ops[keys[0]]] else []) + Collect(ops, keys[1..])
  }

  function Listing(s: State, keys: set<Key>): seq<Op> {
    KeyOrder();
    Collect(s.ops, Sorted(KeyLess, keys))
  }

  function Operations(s: State): seq<Op> { Listing(s, s.integrated) }

  function Equivocations(s: State): seq<Key> {
    KeyOrder();
    Sorted(KeyLess, s.equivocated)
  }

  /* ---------- Causal closure ---------- */

  /** What must be integrated before `op`: its predecessor and its named
      dependencies, as far as they lie above the floor. */
  function Prerequisites(floor: map<string, int>, op: Op): set<Key> {
    (if op.seqNo - 1 > At(floor, op.origin) then {Key(op.origin, op.seqNo - 1)} else {})
    + (set e | e in op.deps && e.seqNo > At(floor, e.origin) :: Key(e.origin, e.seqNo))
  }

  /** `S` contains every operation of `seen` whose prerequisites it contains. */
  ghost predicate ClosedUnder(floor: map<string, int>, seen: set<Op>, S: set<Key>) {
    forall op | op in seen :: Prerequisites(floor, op) <= S ==> KeyOf(op) in S
  }

  ghost predicate ClosedOver(floor: map<string, int>, ops: map<Key, Op>, S: set<Key>) {
    forall k | k in ops :: Prerequisites(floor, ops[k]) <= S ==> k in S
  }

  /** `S` extends `base` by nothing that a closed set above `base` lacks. */
  ghost predicate ForcedOver(floor: map<string, int>, ops: map<Key, Op>, base: set<Key>, S: set<Key>) {
    base <= S && forall T: set<Key> | base <= T && ClosedOver(floor, ops, T) :: S <= T
  }

  /** `S` is the least closed set above `base`. */
  ghost predicate LeastOver(floor: map<string, int>, ops: map<Key, Op>, base: set<Key>, S: set<Key>) {
    ForcedOver(floor, ops, base, S) && ClosedOver(floor, ops, S)
  }

  /** The clock is the floor advanced over the integrated identities, which
      are consecutive for each origin. */
  ghost predicate ClockMatches(floor: map<string, int>, clock: map<string, int>, integrated: set<Key>) {
    && Positive(floor) && Positive(clock) && Below(floor, clock)
    && forall o: string, n: int :: Key(o, n) in integrated <==> At(floor, o) < n <= At(clock, o)
  }

  lemma ClockDetermined(floor: map<string, int>, a: map<string, int>, b: map<string, int>, integrated: set<Key>)
    requires ClockMatches(floor, a, integrated) && ClockMatches(floor, b, integrated)
    ensures a == b
  {
    forall o: string ensures At(a, o) == At(b, o) {
      assert At(a, o) > At(floor, o) ==> Key(o, At(a, o)) in integrated;
      assert At(b, o) > At(floor, o) ==> Key(o, At(b, o)) in integrated;
    }
    PositiveExtensional(a, b);
  }

  /** A larger integrated set has a larger clock. */
  lemma ClockMonotone(floor: map<string, int>, a: map<string, int>, I: set<Key>, b: map<string, int>, J: set<Key>)
    requires ClockMatches(floor, a, I) && ClockMatches(floor, b, J)
    ensures I <= J <==> Below(a, b)
  {
    if I <= J {
      forall o: string ensures At(a, o) <= At(b, o) {
        if At(a, o) > At(floor, o) { assert Key(o, At(a, o)) in I; }
      }
    }
    if Below(a, b) {
      forall k | k in I ensures k in J {
        assert Key(k.origin, k.seqNo) in I;
        assert At(a, k.origin) <= At(b, k.origin);
        assert Key(k.origin, k.seqNo) in J;
      }
    }
  }

  /** For an operation that is not integrated, being ready is having all
      prerequisites integrated. */
  lemma ReadyIffPrerequisites(floor: map<string, int>, clock: map<string, int>, integrated: set<Key>, op: Op)
    requires ClockMatches(floor, clock, integrated)
    requires op.seqNo > At(floor, op.origin)
    ensures Ready(clock, op) <==> Prerequisites(floor, op) <= integrated
  {
    var p := Key(op.origin, op.seqNo - 1);
    forall e | e in op.deps
      ensures At(clock, e.origin) >= e.seqNo <==> e.seqNo <= At(floor, e.origin) || Key(e.origin, e.seqNo) in integrated
    {
      assert At(floor, e.origin) <= At(clock, e.origin);
    }
    assert At(floor, op.origin) <= At(clock, op.origin);
    if Ready(clock, op) {
      forall k | k in Prerequisites(floor, op) ensures k in integrated {
        if k != p {
          var e :| e in op.deps && e.seqNo > At(floor, e.origin) && k == Key(e.origin, e.seqNo);
        } else if op.seqNo - 1 > At(floor, op.origin) {
          assert op.seqNo - 1 <= At(clock, op.origin);
        }
      }
    }
    if Prerequisites(floor, op) <= integrated {
      forall e | e in op.deps ensures At(clock, e.origin) >= e.seqNo {
        if e.seqNo > At(floor, e.origin) { assert Key(e.origin, e.seqNo) in Prerequisites(floor, op); }
      }
      if op.seqNo - 1 > At(floor, op.origin) { assert p in Prerequisites(floor, op); assert p in integrated; }
    }
  }

  /** Integrating the next identity of an origin moves only that reading. */
  lemma AdvanceClock(floor: map<string, int>, clock: map<string, int>, integrated: set<Key>, k: Key)
    requires ClockMatches(floor, clock, integrated)
    requires k.origin != "" && k.seqNo == At(clock, k.origin) + 1
    ensures ClockMatches(floor, clock[k.origin := k.seqNo], integrated + {k})
  {
    assert At(floor, k.origin) <= At(clock, k.origin);
    forall o: string, n: int
      ensures Key(o, n) in integrated + {k} <==> At(floor, o) < n <= At(clock[k.origin := k.seqNo], o)
    {
      assert Key(o, n) in integrated <==> At(floor, o) < n <= At(clock, o);
    }
  }

  lemma LeastUnique(floor: map<string, int>, ops: map<Key, Op>, base: set<Key>, S: set<Key>, T: set<Key>)
    requires LeastOver(floor, ops, base, S) && LeastOver(floor, ops, base, T)
    ensures S == T
  {
  }

  /* ---------- One apply ---------- */

  function Pending(s: State): int { |s.ops| - |s.integrated| }

  function Winner(op: Op, previous: Op): Op { if VariantLess(op, previous) then op else previous }

  predicate Stored(s: State, op: Op) { KeyOf(op) in s.ops }

  /** Neither terminal, malformed nor at or below the floor. */
  predicate Admissible(s: State, op: Op) {
    !s.sealed && !s.closed && Valid(op) && op.seqNo > At(s.floor, op.origin)
  }

  predicate Refused(s: State, op: Op) {
    Admissible(s, op) && !Stored(s, op) && !Ready(s.clock, op) && Pending(s) >= s.maxPending
  }

  /** The operation table after `op`, before draining. */
  function Filed(s: State, op: Op): State {
    if !Admissible(s, op) || Refused(s, op) then s
    else if !Stored(s, op) then s.(ops := s.ops[KeyOf(op) := op])
    else if s.ops[KeyOf(op)] == op then s
    else s.(ops := s.ops[KeyOf(op) := Winner(op, s.ops[KeyOf(op)])], equivocated := s.equivocated + {KeyOf(op)})
  }

  /** `t` is `s` with exactly the causal closure of its operations integrated. */
  ghost predicate Drained(s: State, t: State) {
    && t == s.(integrated := t.integrated, clock := t.clock)
    && LeastOver(s.floor, s.ops, s.integrated, t.integrated)
    && ClockMatches(s.floor, t.clock, t.integrated)
  }

  ghost predicate Applied(s: State, op: Op, t: State) { Drained(Filed(s, op), t) }

  function ApplyOutputs(s: State, op: Op): seq<Output> {
    if s.sealed || s.closed then [Diagnose(ApplyAfterTerminal, Some(op))]
    else if !Valid(op) then [Diagnose(InvalidOperation, Some(op))]
    else if Refused(s, op) then [Diagnose(PendingBoundExceeded, Some(op))]
    else if Admissible(s, op) && Stored(s, op) && s.ops[KeyOf(op)] != op && KeyOf(op) !in s.equivocated
      then [Diagnose(Equivocation, Some(op))]
    else []
  }

  /* ---------- The other inputs ---------- */

  function InstallOutputs(s: State, b: Bootstrap): seq<Output> {
    if s.sealed || s.closed then [Diagnose(ApplyAfterTerminal, None)]
    else if ParseClock(b.clock).None? then [Diagnose(InvalidOperation, None)]
    else if s.bootstrap == Some(b) then []
    else if s.bootstrap.Some? || s.ops != map[] then [Diagnose(BootstrapConflict, None)]
    else []
  }

  function Installed(s: State, b: Bootstrap): State {
    if s.sealed || s.closed || ParseClock(b.clock).None? || s.bootstrap.Some? || s.ops != map[] then s
    else s.(floor := ParseClock(b.clock).value, clock := ParseClock(b.clock).value, bootstrap := Some(b))
  }

  function Respond(s: State, q: ReadRequest, state: ReadState, bootstrap: Option<Bootstrap>, ops: seq<Op>,
                   error: Option<Error>): ReadResponse
  {
    ReadResponse(q.crdtId, q.streamId, bootstrap, ops, ClockValue(s.clock), state, error)
  }

  function Above(s: State, base: map<string, int>): set<Key> {
    set k | k in s.integrated && k.seqNo > At(base, k.origin)
  }

  /** A request's position: absent reads as the start, malformed as none. */
  function CursorOf(q: ReadRequest): Option<map<string, int>> {
    if q.cursor.None? then Some(map[]) else ParseClock(q.cursor.value)
  }

  function ReadAt(s: State, q: ReadRequest, cursor: map<string, int>): ReadResponse {
    if exists o | o in cursor :: cursor[o] > At(s.clock, o) then Respond(s, q, InvalidCursor, None, [], None)
    else
      var behind := q.cursor.Some? && exists o | o in s.floor :: At(cursor, o) < s.floor[o];
      var bootstrap := if behind || q.cursor.None? then s.bootstrap else None;
      var ops := Listing(s, Above(s, if behind then s.floor else cursor));
      if bootstrap.Some? || ops != [] then
        Respond(s, q, if behind then BootstrapRequired else Data, bootstrap, ops, None)
      else if s.closed then Respond(s, q, if s.error.Some? then Failed else ReadState.Closed, None, [], s.error)
      else if s.sealed then Respond(s, q, Eof, None, [], None)
      else Respond(s, q, Empty, None, [], None)
  }

  function ReadOf(s: State, q: ReadRequest): ReadResponse {
    match CursorOf(q)
    case None => Respond(s, q, InvalidCursor, None, [], None)
    case Some(cursor) => ReadAt(s, q, cursor)
  }

  /** One input of the mailbox. */
  ghost predicate Step(s: State, input: Input, t: State) {
    match input
    case Apply(op) => Applied(s, op, t)
    case InstallBootstrap(b) => t == Installed(s, b)
    case Seal => t == if s.closed then s else s.(sealed := true)
    case Close(error) => t == if s.closed then s else s.(closed := true, error := error)
    case Read(_) => t == s
  }

  function Outputs(s: State, input: Input): seq<Output> {
    match input
    case Apply(op) => ApplyOutputs(s, op)
    case InstallBootstrap(b) => InstallOutputs(s, b)
    case Seal => []
    case Close(_) => []
    case Read(q) => [Response(ReadOf(s, q))]
  }

  /* ---------- The invariant ---------- */

  /** The stored operations are the least variants of the operations seen. */
  ghost predicate StoresWinners(floor: map<string, int>, ops: map<Key, Op>, seen: set<Op>) {
    && (forall op | op in seen :: Valid(op) && op.seqNo > At(floor, op.origin) && KeyOf(op) in ops)
    && (forall k | k in ops :: ops[k] in seen && KeyOf(ops[k]) == k)
    && (forall op | op in seen :: op == ops[KeyOf(op)] || VariantLess(ops[KeyOf(op)], op))
  }

  ghost predicate SeenBesides(ops: map<Key, Op>, seen: set<Op>, k: Key) {
    exists op | op in seen :: KeyOf(op) == k && k in ops && op != ops[k]
  }

  /** Exactly the identities seen in two variants are equivocated. */
  ghost predicate MarksEquivocations(ops: map<Key, Op>, equivocated: set<Key>, seen: set<Op>) {
    forall k :: k in equivocated <==> SeenBesides(ops, seen, k)
  }

  /** Nothing is integrated that the operations seen do not force, whichever
      variant is taken of each identity. */
  ghost predicate Forced(floor: map<string, int>, integrated: set<Key>, seen: set<Op>) {
    forall T: set<Key> | ClosedUnder(floor, seen, T) :: integrated <= T
  }

  ghost predicate FloorIsBootstrap(s: State) {
    match s.bootstrap
    case None => s.floor == map[]
    case Some(b) => ParseClock(b.clock) == Some(s.floor)
  }

  ghost predicate Inv(s: State, seen: set<Op>) {
    && FloorIsBootstrap(s)
    && StoresWinners(s.floor, s.ops, seen)
    && MarksEquivocations(s.ops, s.equivocated, seen)
    && ClockMatches(s.floor, s.clock, s.integrated)
    && s.integrated <= s.ops.Keys
    && ClosedOver(s.floor, s.ops, s.integrated)
    && Forced(s.floor, s.integrated, seen)
    && Pending(s) <= s.maxPending
  }

  /** The operations seen after `op` is applied in `s`. */
  function SeenAfter(s: State, seen: set<Op>, op: Op): set<Op> {
    if Admissible(s, op) && !Refused(s, op) then seen + {op} else seen
  }

  lemma NewInv(maxPending: nat)
    ensures Inv(New(maxPending), {})
  {
  }

  lemma InsertStoresWinners(floor: map<string, int>, ops: map<Key, Op>, seen: set<Op>, op: Op)
    requires StoresWinners(floor, ops, seen) && KeyOf(op) !in ops
    requires Valid(op) && op.seqNo > At(floor, op.origin)
    ensures StoresWinners(floor, ops[KeyOf(op) := op], seen + {op})
  {
  }

  lemma ReplaceStoresWinners(floor: map<string, int>, ops: map<Key, Op>, seen: set<Op>, op: Op)
    requires StoresWinners(floor, ops, seen) && KeyOf(op) in ops
    requires Valid(op) && op.seqNo > At(floor, op.origin)
    ensures StoresWinners(floor, ops[KeyOf(op) := Winner(op, ops[KeyOf(op)])], seen + {op})
  {
    var p := ops[KeyOf(op)];
    VariantTrichotomy(op, p);
    forall x | x in seen && KeyOf(x) == KeyOf(op) && x != p && VariantLess(op, p) ensures VariantLess(op, x) {
      VariantTransitive(op, p, x);
    }
  }

  lemma FiledStoresWinners(s: State, seen: set<Op>, op: Op)
    requires StoresWinners(s.floor, s.ops, seen)
    ensures StoresWinners(s.floor, Filed(s, op).ops, SeenAfter(s, seen, op))
  {
    if Admissible(s, op) && !Refused(s, op) {
      if !Stored(s, op) {
        InsertStoresWinners(s.floor, s.ops, seen, op);
      } else if s.ops[KeyOf(op)] == op {
        assert seen + {op} == seen;
      } else {
        ReplaceStoresWinners(s.floor, s.ops, seen, op);
      }
    }
  }

  lemma FiledMarksEquivocations(s: State, seen: set<Op>, op: Op)
    requires StoresWinners(s.floor, s.ops, seen) && MarksEquivocations(s.ops, s.equivocated, seen)
    ensures MarksEquivocations(Filed(s, op).ops, Filed(s, op).equivocated, SeenAfter(s, seen, op))
  {
    if Admissible(s, op) && !Refused(s, op) {
      var t := Filed(s, op);
      var seen' := seen + {op};
      var k := KeyOf(op);
      forall j ensures j in t.equivocated <==> SeenBesides(t.ops, seen', j) {
        if j == k && Stored(s, op) && s.ops[k] != op {
          VariantTrichotomy(op, s.ops[k]);
          var loser := if VariantLess(op, s.ops[k]) then s.ops[k] else op;
          assert loser in seen' && KeyOf(loser) == j && loser != t.ops[j];
        } else if j in s.equivocated {
          var x :| x in seen && KeyOf(x) == j && j in s.ops && x != s.ops[j];
          assert x in seen' && x != t.ops[j];
        }
      }
    }
  }

  lemma DrainKeepsForced(floor: map<string, int>, base: set<Key>, seen: set<Op>, seen': set<Op>,
                         ops: map<Key, Op>, integrated: set<Key>)
    requires Forced(floor, base, seen) && seen <= seen' && StoresWinners(floor, ops, seen')
    requires LeastOver(floor, ops, base, integrated)
    ensures Forced(floor, integrated, seen')
  {
    forall T: set<Key> | ClosedUnder(floor, seen', T) ensures integrated <= T {
      assert ClosedUnder(floor, seen, T);
      assert ClosedOver(floor, ops, T);
    }
  }

  /** The first key of a `BTreeMap` iteration. */
  function First(keys: set<Key>): (k: Key)
    requires keys != {}
    ensures k in keys
  {
    KeyOrder();
    Least(KeyLess, keys)
  }

  /** A batch of ready operations lies in every closed set above, and with
      none ready the integrated set is closed. */
  lemma NotReadyIsClosed(floor: map<string, int>, clock: map<string, int>, ops: map<Key, Op>, base: set<Key>,
                         integrated: set<Key>, ready: set<Key>)
    requires ClockMatches(floor, clock, integrated) && ForcedOver(floor, ops, base, integrated)
    requires forall k | k in ops :: KeyOf(ops[k]) == k && k.seqNo > At(floor, k.origin)
    requires ready == set k | k in ops && k !in integrated && Ready(clock, ops[k])
    ensures ready == {} ==> ClosedOver(floor, ops, integrated)
    ensures ForcedOver(floor, ops, base, integrated + ready)
  {
    forall k | k in ops ensures Ready(clock, ops[k]) <==> Prerequisites(floor, ops[k]) <= integrated {
      ReadyIffPrerequisites(floor, clock, integrated, ops[k]);
    }
  }

  /** The closure of a stored set is stored. */
  lemma DrainStaysStored(floor: map<string, int>, ops: map<Key, Op>, base: set<Key>, S: set<Key>)
    requires LeastOver(floor, ops, base, S) && base <= ops.Keys
    ensures S <= ops.Keys
  {
    var T := S * ops.Keys;
    assert ClosedOver(floor, ops, T);
  }

  lemma CardinalityMonotone<T>(a: set<T>, b: set<T>)
    requires a <= b
    ensures |a| <= |b|
  {
    assert b == a + (b - a);
  }

  /** Filing changes the table by at most the one identity, and adds it only
      when it is ready or there is room to hold it back. */
  lemma FiledKeeps(s: State, op: Op)
    ensures Filed(s, op) == s.(ops := Filed(s, op).ops, equivocated := Filed(s, op).equivocated)
    ensures s.ops.Keys == Filed(s, op).ops.Keys
         || (KeyOf(op) !in s.ops && Filed(s, op).ops == s.ops[KeyOf(op) := op] && op.seqNo > At(s.floor, op.origin)
             && (Ready(s.clock, op) || Pending(s) < s.maxPending))
  {
  }

  /** An operation stored although the buffer is full is integrated at once. */
  lemma ReadyIsIntegrated(s: State, op: Op, ops: map<Key, Op>, integrated: set<Key>)
    requires ClockMatches(s.floor, s.clock, s.integrated) && op.seqNo > At(s.floor, op.origin)
    requires KeyOf(op) in ops && ops[KeyOf(op)] == op && Ready(s.clock, op)
    requires LeastOver(s.floor, ops, s.integrated, integrated)
    ensures KeyOf(op) in integrated
  {
    ReadyIffPrerequisites(s.floor, s.clock, s.integrated, op);
  }

  lemma PendingArithmetic(a: set<Key>, I: set<Key>, b: set<Key>, J: set<Key>, k: Key, bound: nat)
    requires I <= a && I <= J && |a| - |I| <= bound
    requires b == a || (k !in a && b == a + {k} && (k in J || |a| - |I| < bound))
    ensures |b| - |J| <= bound && |b| <= |a| + 1
  {
    CardinalityMonotone(I, J);
    if b != a && k in J { CardinalityMonotone(I + {k}, J); }
  }

  lemma DrainPending(s: State, op: Op, ops: map<Key, Op>, integrated: set<Key>)
    requires ClockMatches(s.floor, s.clock, s.integrated) && s.integrated <= s.ops.Keys
    requires Filed(s, op).ops == ops && LeastOver(s.floor, ops, s.integrated, integrated)
    requires Pending(s) <= s.maxPending
    ensures |ops| - |integrated| <= s.maxPending && |ops| <= |s.ops| + 1
  {
    FiledKeeps(s, op);
    if ops.Keys != s.ops.Keys && Ready(s.clock, op) { ReadyIsIntegrated(s, op, ops, integrated); }
    PendingArithmetic(s.ops.Keys, s.integrated, ops.Keys, integrated, KeyOf(op), s.maxPending);
    assert |ops| == |ops.Keys| && |s.ops| == |s.ops.Keys|;
  }

  lemma ApplyKeepsHistory(s: State, seen: set<Op>, op: Op, t: State)
    requires Inv(s, seen) && Applied(s, op, t)
    ensures StoresWinners(s.floor, t.ops, SeenAfter(s, seen, op))
    ensures MarksEquivocations(t.ops, t.equivocated, SeenAfter(s, seen, op))
    ensures Forced(s.floor, t.integrated, SeenAfter(s, seen, op))
  {
    FiledKeeps(s, op);
    FiledStoresWinners(s, seen, op);
    FiledMarksEquivocations(s, seen, op);
    DrainKeepsForced(s.floor, s.integrated, seen, SeenAfter(s, seen, op), t.ops, t.integrated);
  }

  lemma FiledVariant(s: State, op: Op)
    requires Admissible(s, op) && Stored(s, op) && s.ops[KeyOf(op)] != op
    ensures Filed(s, op) == s.(
      ops := if VariantLess(op, s.ops[KeyOf(op)]) then s.ops[KeyOf(op) := op] else s.ops,
      equivocated := s.equivocated + {KeyOf(op)})
  {
    assert s.ops[KeyOf(op) := s.ops[KeyOf(op)]] == s.ops;
  }

  /** An operation that changes no stored operation changes nothing. */
  lemma UnfiledIsApplied(s: State, seen: set<Op>, op: Op)
    requires Inv(s, seen)
    ensures Filed(s, op) == s ==> Applied(s, op, s)
    ensures Admissible(s, op) && Stored(s, op) && s.ops[KeyOf(op)] == op ==> SeenAfter(s, seen, op) == seen
  {
    hide Valid, VariantLess, MarksEquivocations, FloorIsBootstrap, Filed, ClockMatches, Refused;
  }

  /** Every apply keeps the invariant, whatever the operation, and never turns
      a clock back. */
  lemma ApplyKeepsInv(s: State, seen: set<Op>, op: Op, t: State)
    requires Inv(s, seen) && Applied(s, op, t)
    ensures Inv(t, SeenAfter(s, seen, op))
    ensures Below(s.clock, t.clock) && s.integrated <= t.integrated
    ensures |t.ops| <= |s.ops| + 1
  {
    FiledKeeps(s, op);
    ApplyKeepsHistory(s, seen, op, t);
    DrainStaysStored(s.floor, t.ops, s.integrated, t.integrated);
    ClockMonotone(s.floor, s.clock, s.integrated, t.clock, t.integrated);
    DrainPending(s, op, t.ops, t.integrated);
  }

  function SeenAfterInput(s: State, seen: set<Op>, input: Input): set<Op> {
    match input
    case Apply(op) => SeenAfter(s, seen, op)
    case _ => seen
  }

  lemma InstallKeepsInv(s: State, seen: set<Op>, b: Bootstrap)
    requires Inv(s, seen)
    ensures Inv(Installed(s, b), seen) && Below(s.clock, Installed(s, b).clock)
  {
    var t := Installed(s, b);
    if t != s {
      EntriesAt(b.clock);
      assert seen == {};
      assert forall o: string :: Key(o, At(s.clock, o)) !in s.integrated;
    }
  }

  /** Every input keeps the invariant and never turns a clock back. */
  lemma StepKeepsInv(s: State, seen: set<Op>, input: Input, t: State)
    requires Inv(s, seen) && Step(s, input, t)
    ensures Inv(t, SeenAfterInput(s, seen, input)) && Below(s.clock, t.clock)
  {
    match input
    case Apply(op) => ApplyKeepsInv(s, seen, op, t);
    case InstallBootstrap(b) => InstallKeepsInv(s, seen, b);
    case _ =>
  }
}
