/** Vector clocks, operations and the order on variants of one operation. */
module CrdtClock {
  import opened Wrappers
  import opened Orders

  datatype ClockEntry = ClockEntry(origin: string, seqNo: int)
  type Clock = seq<ClockEntry>

  datatype Key = Key(origin: string, seqNo: int)
  datatype Op = Op(origin: string, seqNo: int, deps: Clock, payload: Bytes)

  function KeyOf(op: Op): Key { Key(op.origin, op.seqNo) }

  /** A missing origin reads as 0. */
  function At(clock: map<string, int>, origin: string): int {
    if origin in clock then clock[origin] else 0
  }

  ghost predicate Below(a: map<string, int>, b: map<string, int>) {
    forall o: string :: At(a, o) <= At(b, o)
  }

  ghost predicate Positive(m: map<string, int>) {
    forall o | o in m :: o != "" && m[o] > 0
  }

  /** Positive maps are determined by their readings. */
  lemma PositiveExtensional(a: map<string, int>, b: map<string, int>)
    requires Positive(a) && Positive(b) && Below(a, b) && Below(b, a)
    ensures a == b
  {
    forall o: string ensures (o in a <==> o in b) && (o in a ==> a[o] == b[o]) {
      assert At(a, o) == At(b, o);
    }
  }

  /** The wire form of a clock: named origins, positive readings, strictly
      ascending. */
  predicate WellFormed(c: Clock) {
    && (forall i | 0 <= i < |c| :: c[i].origin != "" && c[i].seqNo > 0)
    && (forall i, j | 0 <= i < j < |c| :: StringLess(c[i].origin, c[j].origin))
  }

  function Entries(c: Clock): map<string, int> {
    if c == [] then map[]
    else Entries(c[..|c| - 1])[c[|c| - 1].origin := c[|c| - 1].seqNo]
  }

  function ParseClock(c: Clock): Option<map<string, int>> {
    if WellFormed(c) then Some(Entries(c)) else None
  }

  /** Comparing an entry with its neighbour decides whether it may follow. */
  lemma WellFormedStep(c: Clock, i: nat)
    requires i < |c| && WellFormed(c[..i])
    ensures WellFormed(c[..i + 1])
       <==> c[i].origin != "" && c[i].seqNo > 0 && (i > 0 ==> StringLess(c[i - 1].origin, c[i].origin))
    ensures Entries(c[..i + 1]) == Entries(c[..i])[c[i].origin := c[i].seqNo]
    ensures !WellFormed(c[..i + 1]) ==> !WellFormed(c)
  {
    var d, e := c[..i], c[..i + 1];
    assert e[..i] == d && e[i] == c[i];
    StringOrder();
    hide StringLess;
    if i > 0 && StringLess(c[i - 1].origin, c[i].origin) {
      forall k | 0 <= k < i ensures StringLess(e[k].origin, e[i].origin) {
        assert k < i - 1 ==> StringLess(d[k].origin, d[i - 1].origin);
      }
    }
    if WellFormed(e) && i > 0 { assert StringLess(e[i - 1].origin, e[i].origin); }
  }

  /** The single pass of the source, which compares neighbours only. */
  method ClockMap(c: Clock) returns (r: Option<map<string, int>>)
    ensures r == ParseClock(c)
  {
    var result: map<string, int> := map[];
    var previous: Option<string> := None;
    assert c[..0] == [] && WellFormed([]);
    hide WellFormed, Entries, StringLess;
    for i := 0 to |c|
      invariant WellFormed(c[..i]) && result == Entries(c[..i])
      invariant previous == if i == 0 then None else Some(c[i - 1].origin)
    {
      var e := c[i];
      WellFormedStep(c, i);
      if e.origin == "" || e.seqNo <= 0 || (previous.Some? && !StringLess(previous.value, e.origin)) {
        return None;
      }
      result := result[e.origin := e.seqNo];
      previous := Some(e.origin);
    }
    assert c[..|c|] == c;
    r := Some(result);
  }

  lemma {:induction false} EntriesAt(c: Clock)
    requires WellFormed(c)
    ensures forall i | 0 <= i < |c| :: c[i].origin in Entries(c) && Entries(c)[c[i].origin] == c[i].seqNo
    ensures forall o | o in Entries(c) :: exists i :: 0 <= i < |c| && c[i].origin == o
    ensures Positive(Entries(c))
  {
    if c != [] {
      StringOrder();
      var d := c[..|c| - 1];
      EntriesAt(d);
      forall i | 0 <= i < |c| ensures c[i].origin in Entries(c) && Entries(c)[c[i].origin] == c[i].seqNo {
        if i < |d| { assert d[i] == c[i]; }
      }
      forall o | o in Entries(c) ensures exists i :: 0 <= i < |c| && c[i].origin == o {
        if o in Entries(d) {
          var i :| 0 <= i < |d| && d[i].origin == o;
          assert c[i].origin == o;
        } else {
          assert c[|c| - 1].origin == o;
        }
      }
    }
  }

  function Origins(m: map<string, int>): (os: seq<string>)
    ensures Ascending(StringLess, os)
    ensures forall o :: o in os <==> o in m && m[o] > 0
  {
    StringOrder();
    Sorted(StringLess, set o | o in m && m[o] > 0)
  }

  /** The wire form of a map: positive readings only, ascending. */
  function ClockValue(m: map<string, int>): (c: Clock)
    ensures |c| == |Origins(m)|
    ensures forall i | 0 <= i < |c| ::
      Origins(m)[i] in m && c[i] == ClockEntry(Origins(m)[i], m[Origins(m)[i]]) && c[i].seqNo > 0
  {
    var os := Origins(m);
    assert forall i | 0 <= i < |os| :: os[i] in os;
    seq(|os|, i requires 0 <= i < |os| => ClockEntry(os[i], m[os[i]]))
  }

  lemma ClockValueWellFormed(m: map<string, int>)
    requires Positive(m)
    ensures WellFormed(ClockValue(m))
  {
    var os := Origins(m);
    var c := ClockValue(m);
    forall i, j | 0 <= i < j < |c| ensures StringLess(c[i].origin, c[j].origin) {
      assert StringLess(os[i], os[j]);
    }
  }

  lemma EntryAt(c: Clock, i: nat)
    requires WellFormed(c) && i < |c|
    ensures c[i].origin in Entries(c) && Entries(c)[c[i].origin] == c[i].seqNo
  {
    EntriesAt(c);
  }

  lemma EntryOf(c: Clock, o: string) returns (i: nat)
    requires WellFormed(c) && o in Entries(c)
    ensures i < |c| && c[i].origin == o
  {
    EntriesAt(c);
    i :| i < |c| && c[i].origin == o;
  }

  lemma ClockValueParses(m: map<string, int>)
    requires Positive(m)
    ensures ParseClock(ClockValue(m)) == Some(m)
  {
    var c := ClockValue(m);
    ClockValueWellFormed(m);
    forall o | o in m ensures o in Entries(c) && Entries(c)[o] == m[o] {
      assert o in Origins(m);
      var i :| 0 <= i < |Origins(m)| && Origins(m)[i] == o;
      EntryAt(c, i);
    }
    forall o | o in Entries(c) ensures o in m {
      var i := EntryOf(c, o);
      assert Origins(m)[i] in m;
    }
    assert Entries(c) == m;
  }

  ghost function Names(c: Clock): (names: seq<string>)
    ensures |names| == |c| && forall i | 0 <= i < |c| :: names[i] == c[i].origin
  {
    seq(|c|, i requires 0 <= i < |c| => c[i].origin)
  }

  lemma NamesAre(c: Clock)
    requires WellFormed(c)
    ensures Ascending(StringLess, Names(c))
    ensures forall o :: o in Names(c) <==> o in Entries(c)
    ensures Positive(Entries(c))
  {
    EntriesAt(c);
    hide Entries, StringLess;
    var names := Names(c);
    forall o ensures o in names <==> o in Entries(c) {
      if o in names {
        var i :| 0 <= i < |names| && names[i] == o;
        assert c[i].origin in Entries(c);
      }
      if o in Entries(c) {
        var i :| 0 <= i < |c| && c[i].origin == o;
        assert names[i] in names;
      }
    }
  }

  lemma ParsedClockOrigins(c: Clock)
    requires WellFormed(c)
    ensures |Origins(Entries(c))| == |c|
    ensures forall i | 0 <= i < |c| :: Origins(Entries(c))[i] == c[i].origin
  {
    NamesAre(c);
    hide *;
    OriginsOfPositive(Entries(c));
    StringsAscendingUnique(Origins(Entries(c)), Names(c));
  }

  lemma OriginsOfPositive(m: map<string, int>)
    requires Positive(m)
    ensures forall o :: o in Origins(m) <==> o in m
  {
  }

  lemma ParsedClockPrints(c: Clock)
    requires WellFormed(c)
    ensures ClockValue(Entries(c)) == c
  {
    EntriesAt(c);
    ParsedClockOrigins(c);
    forall i | 0 <= i < |c| ensures ClockValue(Entries(c))[i] == c[i] {
      assert Origins(Entries(c))[i] == c[i].origin;
    }
  }

  /** An operation may not name its own identity, or a later one, as a
      prerequisite. */
  predicate Valid(op: Op) {
    WellFormed(op.deps) && op.origin != "" && op.seqNo > 0 && At(Entries(op.deps), op.origin) < op.seqNo
  }

  predicate Ready(clock: map<string, int>, op: Op) {
    op.seqNo <= At(clock, op.origin) + 1 && forall e | e in op.deps :: At(clock, e.origin) >= e.seqNo
  }

  predicate KeyLess(a: Key, b: Key) {
    StringLess(a.origin, b.origin) || (a.origin == b.origin && a.seqNo < b.seqNo)
  }

  lemma KeyOrder()
    ensures StrictTotal(KeyLess)
  {
    StringOrder();
  }

  predicate EntryLess(a: ClockEntry, b: ClockEntry) {
    StringLess(a.origin, b.origin) || (a.origin == b.origin && a.seqNo < b.seqNo)
  }

  predicate ByteLess(a: byte, b: byte) { a < b }

  /** The order that picks the winner among variants of one identity. A
      validated clock is its own ascending listing (`ParsedClockPrints`), so
      the listings are compared directly. */
  predicate VariantLess(a: Op, b: Op) {
    LexLess(EntryLess, a.deps, b.deps) || (a.deps == b.deps && LexLess(ByteLess, a.payload, b.payload))
  }

  lemma VariantTransitive(a: Op, b: Op, c: Op)
    requires VariantLess(a, b) && VariantLess(b, c)
    ensures VariantLess(a, c)
  {
    StringOrder();
    if LexLess(EntryLess, a.deps, b.deps) && LexLess(EntryLess, b.deps, c.deps) {
      LexTransitive(EntryLess, a.deps, b.deps, c.deps);
    } else if a.deps == b.deps == c.deps {
      LexTransitive(ByteLess, a.payload, b.payload, c.payload);
    }
  }

  lemma VariantTrichotomy(a: Op, b: Op)
    requires KeyOf(a) == KeyOf(b)
    ensures VariantLess(a, b) || a == b || VariantLess(b, a)
  {
    StringOrder();
    LexTrichotomy(EntryLess, a.deps, b.deps);
    LexTrichotomy(ByteLess, a.payload, b.payload);
  }

  lemma VariantAsymmetric(a: Op, b: Op)
    requires VariantLess(a, b)
    ensures a != b && !VariantLess(b, a)
  {
    StringOrder();
    LexIrreflexive(EntryLess, a.deps);
    LexIrreflexive(ByteLess, a.payload);
    if VariantLess(b, a) { VariantTransitive(a, b, a); }
  }
}
