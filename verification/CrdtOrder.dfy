/** The orders of the CRDT engine read off the first position where two things
    differ, and the variant that an apply keeps. */
module CrdtOrder {
  import opened Wrappers
  import opened Orders
  import opened CrdtClock
  import opened CrdtSpec

  /* ---------- First differences ---------- */

  ghost predicate BytesPrecede(a: Bytes, b: Bytes) {
    exists i :: 0 <= i <= |a| && i < |b| && a[..i] == b[..i] && (i == |a| || a[i] < b[i])
  }

  ghost predicate EntryPrecedes(a: ClockEntry, b: ClockEntry) {
    StringPrecedes(a.origin, b.origin) || (a.origin == b.origin && a.seqNo < b.seqNo)
  }

  ghost predicate EntriesPrecede(a: Clock, b: Clock) {
    exists i :: 0 <= i <= |a| && i < |b| && a[..i] == b[..i] && (i == |a| || EntryPrecedes(a[i], b[i]))
  }

  /** Dependencies decide first, then the payload. */
  ghost predicate VariantPrecedes(a: Op, b: Op) {
    EntriesPrecede(a.deps, b.deps) || (a.deps == b.deps && BytesPrecede(a.payload, b.payload))
  }

  lemma BytesLessExactly(a: Bytes, b: Bytes)
    ensures LexLess(ByteLess, a, b) <==> BytesPrecede(a, b)
  {
    assert StrictTotal(ByteLess);
    LexLessAt(ByteLess, a, b);
    hide LexLess;
    if i :| DiffersAt(ByteLess, a, b, i) { }
    if BytesPrecede(a, b) {
      var i :| 0 <= i <= |a| && i < |b| && a[..i] == b[..i] && (i == |a| || a[i] < b[i]);
      assert DiffersAt(ByteLess, a, b, i);
    }
  }

  lemma EntryLessExactly(a: ClockEntry, b: ClockEntry)
    ensures EntryLess(a, b) <==> EntryPrecedes(a, b)
  {
    StringLessExactly(a.origin, b.origin);
  }

  /** Identities are ordered by origin, then by sequence number. */
  lemma KeyLessExactly(a: Key, b: Key)
    ensures KeyLess(a, b) <==> StringPrecedes(a.origin, b.origin) || (a.origin == b.origin && a.seqNo < b.seqNo)
  {
    StringLessExactly(a.origin, b.origin);
  }

  lemma EntriesLessExactly(a: Clock, b: Clock)
    ensures LexLess(EntryLess, a, b) <==> EntriesPrecede(a, b)
  {
    StringOrder();
    assert StrictTotal(EntryLess);
    LexLessAt(EntryLess, a, b);
    hide LexLess, EntryPrecedes, EntryLess;
    if i :| DiffersAt(EntryLess, a, b, i) {
      if i < |a| { EntryLessExactly(a[i], b[i]); }
      assert 0 <= i <= |a| && i < |b| && a[..i] == b[..i] && (i == |a| || EntryPrecedes(a[i], b[i]));
    }
    if EntriesPrecede(a, b) {
      var i :| 0 <= i <= |a| && i < |b| && a[..i] == b[..i] && (i == |a| || EntryPrecedes(a[i], b[i]));
      if i < |a| { EntryLessExactly(a[i], b[i]); }
      assert DiffersAt(EntryLess, a, b, i);
    }
  }

  lemma VariantLessExactly(a: Op, b: Op)
    ensures VariantLess(a, b) <==> VariantPrecedes(a, b)
  {
    EntriesLessExactly(a.deps, b.deps);
    BytesLessExactly(a.payload, b.payload);
  }

  /* ---------- The variant that is kept ---------- */

  /** Of all variants accepted of one identity the one stored precedes every
      other at their first difference. */
  lemma StoredPrecedes(s: State, seen: set<Op>, x: Op)
    requires Inv(s, seen) && x in seen
    ensures var k := Key(x.origin, x.seqNo);
      k in s.ops && s.ops[k] in seen && (s.ops[k] == x || VariantPrecedes(s.ops[k], x))
  {
    hide Valid, VariantLess, VariantPrecedes, MarksEquivocations, FloorIsBootstrap, ClockMatches, Forced, ClosedOver;
    var k := Key(x.origin, x.seqNo);
    assert KeyOf(x) == k;
    VariantLessExactly(s.ops[k], x);
  }

  /** Applying a second variant keeps the preceding one of the two, and marks
      the identity. */
  lemma ApplyKeepsPreceding(s: State, seen: set<Op>, op: Op, t: State)
    requires Inv(s, seen) && Applied(s, op, t) && !s.sealed && !s.closed && Valid(op)
    requires var k := Key(op.origin, op.seqNo); k in s.ops && s.ops[k] != op
    ensures var k := Key(op.origin, op.seqNo);
      && k in t.ops && k in t.equivocated
      && t.ops[k] == (if VariantPrecedes(op, s.ops[k]) then op else s.ops[k])
      && (VariantPrecedes(op, s.ops[k]) || VariantPrecedes(s.ops[k], op))
  {
    hide VariantLess, VariantPrecedes, Valid, MarksEquivocations, FloorIsBootstrap, ClockMatches, Forced, ClosedOver, LeastOver;
    var k := Key(op.origin, op.seqNo);
    assert KeyOf(op) == k && KeyOf(s.ops[k]) == k;
    assert s.ops[k] in seen;
    VariantTrichotomy(op, s.ops[k]);
    VariantLessExactly(op, s.ops[k]);
    VariantLessExactly(s.ops[k], op);
  }
}
