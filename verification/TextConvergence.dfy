/** The projection is determined by the bootstrap and the set of operations, and
    converged replicas show the same text. */
module TextConvergence {
  import opened Wrappers
  import opened Orders
  import opened CrdtClock
  import opened CrdtSpec
  import opened CrdtConvergence
  import opened CrdtCatchUp
  import opened TextForest
  import opened TextWalk
  import opened TextProjection
  import opened TextPhases

  /* ---------- One text ---------- */

  /** A grown tree is determined by its root and what blocks it. */
  lemma {:induction false} GrownUnique(atoms: Atoms, blocked: set<string>, t: Tree, u: Tree)
    requires Grown(atoms, blocked, t) && Grown(atoms, blocked, u) && t.id == u.id
    ensures t == u
    decreases t
  {
    assert |t.kids| == |Ids(t.kids)| == |Ids(u.kids)| == |u.kids|;
    forall i | 0 <= i < |t.kids| ensures t.kids[i] == u.kids[i] {
      assert t.kids[i] in t.kids && u.kids[i] in u.kids;
      assert Ids(t.kids)[i] == Ids(u.kids)[i];
      GrownUnique(atoms, blocked, t.kids[i], u.kids[i]);
    }
    assert t.kids == u.kids;
  }

  lemma ForestUnique(atoms: Atoms, a: seq<Tree>, b: seq<Tree>)
    requires Ids(a) == Ids(b) && (forall t | t in a :: Grown(atoms, {}, t)) && forall t | t in b :: Grown(atoms, {}, t)
    ensures a == b
  {
    assert |a| == |Ids(a)| == |b|;
    forall i | 0 <= i < |a| ensures a[i] == b[i] {
      assert Ids(a)[i] == Ids(b)[i] && a[i] in a && b[i] in b;
      GrownUnique(atoms, {}, a[i], b[i]);
    }
  }

  lemma LeastLeftUnique(atoms: Atoms, done: set<string>, r: string, q: string)
    requires LeastLeft(atoms, done, r) && LeastLeft(atoms, done, q)
    ensures r == q
  {
    StringTrichotomy(r, q);
  }

  lemma {:induction false} LatePrefix(atoms: Atoms, ids: seq<string>, late: seq<Tree>, n: nat)
    requires LateGrown(atoms, ids, late) && n <= |late|
    ensures LateGrown(atoms, ids, late[..n])
    decreases |late|
  {
    if n < |late| {
      assert late[..|late| - 1][..n] == late[..n];
      LatePrefix(atoms, ids, late[..|late| - 1], n);
    } else {
      assert late[..n] == late;
    }
  }

  /** As far as both go, later trees are the same. */
  lemma {:induction false} LateUnique(atoms: Atoms, ids: seq<string>, a: seq<Tree>, b: seq<Tree>)
    requires LateGrown(atoms, ids, a) && LateGrown(atoms, ids, b) && |a| == |b|
    ensures a == b
    decreases |a|
  {
    hide *;
    if a != [] {
      var n := |a| - 1;
      LateLast(atoms, ids, a);
      LateLast(atoms, ids, b);
      LateUnique(atoms, ids, a[..n], b[..n]);
      var done := Elements(ids + PreorderAll(a[..n]));
      LeastLeftUnique(atoms, done, a[n].id, b[n].id);
      GrownUnique(atoms, done + {a[n].id}, a[n], b[n]);
      assert a == a[..n] + [a[n]] && b == b[..n] + [b[n]];
    }
  }

  lemma LateLast(atoms: Atoms, ids: seq<string>, late: seq<Tree>)
    requires LateGrown(atoms, ids, late) && late != []
    ensures var n := |late| - 1;
      var done := Elements(ids + PreorderAll(late[..n]));
      LateGrown(atoms, ids, late[..n]) && LeastLeft(atoms, done, late[n].id) && Grown(atoms, done + {late[n].id}, late[n])
  {
    hide LeastLeft, Grown, Elements, PreorderAll;
  }

  /** Later trees that leave nothing out do not go on. */
  lemma LateEnds(atoms: Atoms, ids: seq<string>, a: seq<Tree>, b: seq<Tree>)
    requires LateGrown(atoms, ids, a) && LateGrown(atoms, ids, b)
    requires forall x | Attached(atoms, x) :: x in ids + PreorderAll(a)
    ensures |b| <= |a|
  {
    if |b| > |a| {
      LatePrefix(atoms, ids, b, |a|);
      LateUnique(atoms, ids, a, b[..|a|]);
      LateGoesOn(atoms, ids, b, |a|);
      assert false;
    }
  }

  lemma LateGoesOn(atoms: Atoms, ids: seq<string>, late: seq<Tree>, m: nat)
    requires LateGrown(atoms, ids, late) && m < |late|
    ensures Attached(atoms, late[m].id) && late[m].id !in ids + PreorderAll(late[..m])
  {
    LatePrefix(atoms, ids, late, m + 1);
    var c := late[..m + 1];
    assert c[..m] == late[..m] && c[m] == late[m];
    hide Attached, Grown, PreorderAll;
    assert late[m].id !in Elements(ids + PreorderAll(late[..m]));
  }

  /** Exactly one sequence of atoms is emitted, and one text. */
  lemma ProjectedUnique(atoms: Atoms, deleted: set<string>, w: Walked, forest: seq<Tree>, late: seq<Tree>,
                        v: Walked, forest': seq<Tree>, late': seq<Tree>)
    requires Projected(atoms, deleted, w, forest, late) && Projected(atoms, deleted, v, forest', late')
    ensures w.emitted == v.emitted && w.output == v.output
  {
    hide Grown, Render, LeastOnCycle, LateGrown, Attached, Distinct, PreorderAll;
    ForestUnique(atoms, forest, forest');
    var ids := PreorderAll(forest);
    LateEnds(atoms, ids, late, late');
    LateEnds(atoms, ids, late', late);
    LateUnique(atoms, ids, late, late');
  }

  /* ---------- One projection ---------- */

  /** Operations with distinct identities, none of them the bootstrap's. */
  ghost predicate Distinguished(events: seq<Event>) {
    && (forall e, f | e in events && f in events && e.key == f.key :: e == f)
    && forall e | e in events :: e.key != Key("", 0)
  }

  /** The projection is a function of the bootstrap and the set of operations:
      their order does not matter. */
  lemma ProjectionDetermined(rows: Option<Option<seq<Row>>>, a: seq<Event>, x: Projection, b: seq<Event>, y: Projection)
    requires Projects(rows, a, x) && Projects(rows, b, y)
    requires Distinguished(a) && forall e :: e in a <==> e in b
    ensures x == y
  {
    var base, atoms, deleted, w, forest, late :| ProjectsBy(rows, a, x, base, atoms, deleted, w, forest, late);
    var base', atoms', deleted', v, forest', late' :| ProjectsBy(rows, b, y, base', atoms', deleted', v, forest', late');
    hide FromRows, KeepsLeast, Projected, Contested, Candidates, LeastOnCycle;
    FromRowsUnique(Known(rows), base, base');
    ChoiceIsOrderFree(base, a, atoms, b, atoms');
    assert deleted == deleted';
    ProjectedUnique(atoms, deleted, w, forest, late, v, forest', late');
    forall d ensures d in x.diagnostics <==> d in y.diagnostics {
      match d
      case AtomEquivocation(id) => SameCandidates(base, a, b, id);
      case _ =>
    }
  }

  /* ---------- Replicas ---------- */

  /** The operations of a replica with their payloads decoded. */
  function EventsOf(decode: Bytes -> Payload, ops: seq<Op>): (events: seq<Event>)
    ensures |events| == |ops| && forall i | 0 <= i < |ops| :: events[i] == Event(KeyOf(ops[i]), decode(ops[i].payload))
  {
    seq(|ops|, i requires 0 <= i < |ops| => Event(KeyOf(ops[i]), decode(ops[i].payload)))
  }

  function RowsOf(decode: Bytes -> Option<seq<Row>>, bootstrap: Option<Bootstrap>): Option<Option<seq<Row>>> {
    if bootstrap.Some? then Some(decode(bootstrap.value.state)) else None
  }

  /** The operations of a reachable replica have distinct identities. */
  lemma OperationsDistinguished(s: State, seen: set<Op>, decode: Bytes -> Payload)
    requires CrdtSpec.Inv(s, seen)
    ensures Distinguished(EventsOf(decode, Operations(s)))
  {
    var ops := Operations(s);
    var events := EventsOf(decode, ops);
    OperationsStored(s, seen);
    hide CrdtSpec.Inv, Operations;
    forall e | e in events ensures exists op :: op in ops && e == Event(KeyOf(op), decode(op.payload)) {
      var i :| 0 <= i < |events| && events[i] == e;
      assert ops[i] in ops;
    }
  }

  lemma OperationsStored(s: State, seen: set<Op>)
    requires CrdtSpec.Inv(s, seen)
    ensures forall op | op in Operations(s) :: KeyOf(op) in s.ops && s.ops[KeyOf(op)] == op && op.seqNo > 0
  {
    OperationsListed(s);
    InvClock(s, seen);
    ListingElements(s, s.integrated);
    hide Operations, VariantLess, MarksEquivocations, ClosedOver, Forced;
    forall op | op in Operations(s) ensures KeyOf(op) in s.ops && s.ops[KeyOf(op)] == op && op.seqNo > 0 {
      var k :| k in s.integrated && s.ops[k] == op;
    }
  }

  /** Replicas that start from the same bootstrap and are delivered the same
      settled operations, in any order with any repetition, project the same
      text with the same diagnostics. */
  lemma ConvergedReplicasProjectAlike(bootstrap: Option<Bootstrap>, a: seq<State>, opsA: seq<Op>, b: seq<State>, opsB: seq<Op>,
                                      payload: Bytes -> Payload, rows: Bytes -> Option<seq<Row>>, x: Projection, y: Projection)
    requires Delivers(a, opsA) && NoneRefused(a, opsA) && a[0] == Start(a[0].maxPending, bootstrap)
    requires Delivers(b, opsB) && NoneRefused(b, opsB) && b[0] == Start(b[0].maxPending, bootstrap)
    requires Counted(a[0].floor, opsA) == Counted(b[0].floor, opsB) && Settled(a[0].floor, Counted(a[0].floor, opsA))
    requires Projects(RowsOf(rows, Last(a).bootstrap), EventsOf(payload, Operations(Last(a))), x)
    requires Projects(RowsOf(rows, Last(b).bootstrap), EventsOf(payload, Operations(Last(b))), y)
    ensures x == y
  {
    Convergence(bootstrap, a, opsA, b, opsB);
    StartInv(a[0].maxPending, bootstrap);
    StartInv(b[0].maxPending, bootstrap);
    DeliveryExtendsSeen(a, opsA, {});
    DeliveryExtendsSeen(b, opsB, {});
    SameBootstrap(a[0].maxPending, b[0].maxPending, bootstrap);
    hide *;
    OperationsDistinguished(Last(a), {} + Counted(a[0].floor, opsA), payload);
    ProjectionDetermined(RowsOf(rows, Last(a).bootstrap), EventsOf(payload, Operations(Last(a))), x,
                         EventsOf(payload, Operations(Last(b))), y);
  }

  lemma SameBootstrap(m: nat, n: nat, bootstrap: Option<Bootstrap>)
    ensures Start(m, bootstrap).bootstrap == Start(n, bootstrap).bootstrap
  {
  }
}
