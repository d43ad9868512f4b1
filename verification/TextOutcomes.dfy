/** What a projection shows, in terms of the rows and the operations alone. */
module TextOutcomes {
  import opened Wrappers
  import opened Sequences
  import opened Orders
  import opened CrdtClock
  import opened CrdtOrder
  import opened TextForest
  import opened TextWalk
  import opened TextProjection
  import opened TextPhases

  /** The order of candidates: what they follow, none being the empty id; then
      text, origin and number. */
  ghost predicate CandidatePrecedes(a: Atom, b: Atom) {
    var p, q := if a.after.Some? then a.after.value else "", if b.after.Some? then b.after.value else "";
    StringPrecedes(p, q)
    || (p == q
        && (StringPrecedes(a.text, b.text)
            || (a.text == b.text
                && (StringPrecedes(a.key.origin, b.key.origin)
                    || (a.key.origin == b.key.origin && a.key.seqNo < b.key.seqNo)))))
  }

  lemma CandidateLessExactly(a: Atom, b: Atom)
    ensures CandidateLess(a, b) <==> CandidatePrecedes(a, b)
  {
    StringLessExactly(GetOr(a.after), GetOr(b.after));
    StringLessExactly(a.text, b.text);
    KeyLessExactly(a.key, b.key);
    hide StringLess, StringPrecedes;
  }

  /** All rows of a readable bootstrap count, and none of any other. */
  lemma RowsCounted(rows: Option<Option<seq<Row>>>, readable: seq<Row>)
    ensures rows == Some(Some(readable)) ==> Known(rows) == readable
    ensures rows == None || rows == Some(None) ==> Known(rows) == []
  {
  }

  /** An id is placed exactly when the bootstrap has it or an operation inserts
      it; it is placed as one of those, which no other precedes. */
  lemma PlacedAtoms(rows: Option<Option<seq<Row>>>, events: seq<Event>, result: Projection, base: Atoms, atoms: Atoms,
                    deleted: set<string>, w: Walked, forest: seq<Tree>, late: seq<Tree>, id: string)
    requires ProjectsBy(rows, events, result, base, atoms, deleted, w, forest, late)
    ensures id in atoms <==> id in base || exists e :: e in events && e.payload.Insert? && e.payload.atomId == id
    ensures id in atoms ==>
      (id in base && atoms[id] == base[id])
      || exists e :: e in events && e.payload == Insert(id, atoms[id].after, atoms[id].text) && e.key == atoms[id].key
    ensures id in atoms && id in base ==> !CandidatePrecedes(base[id], atoms[id])
    ensures id in atoms ==> forall e | e in events && e.payload.Insert? && e.payload.atomId == id ::
      !CandidatePrecedes(Atom(e.payload.after, e.payload.text, e.key), atoms[id])
  {
    hide FromRows, Projected, Contested, LeastOnCycle, CandidateLess, CandidatePrecedes;
    assert Chosen(Candidates(base, events, id), atoms, id);
    if id in base && id in atoms { CandidateLessExactly(base[id], atoms[id]); }
    forall e | e in events && e.payload.Insert? && e.payload.atomId == id
      ensures id in atoms && !CandidatePrecedes(Atom(e.payload.after, e.payload.text, e.key), atoms[id])
    {
      var c := Atom(e.payload.after, e.payload.text, e.key);
      assert c in Candidates(base, events, id);
      CandidateLessExactly(c, atoms[id]);
    }
  }

  /** An id is reported as contested exactly when it could have been placed in
      another way. */
  lemma ContestedIds(rows: Option<Option<seq<Row>>>, events: seq<Event>, result: Projection, base: Atoms, atoms: Atoms,
                     deleted: set<string>, w: Walked, forest: seq<Tree>, late: seq<Tree>, id: string)
    requires ProjectsBy(rows, events, result, base, atoms, deleted, w, forest, late)
    ensures AtomEquivocation(id) in result.diagnostics <==>
      id in atoms
      && ((id in base && base[id] != atoms[id])
          || exists e :: e in events && e.payload.Insert? && e.payload.atomId == id
                      && (e.payload.after != atoms[id].after || e.payload.text != atoms[id].text || e.key != atoms[id].key))
  {
    hide FromRows, Projected, KeepsLeast, LeastOnCycle;
    forall e | e in events && e.payload.Insert? && e.payload.atomId == id
      ensures Atom(e.payload.after, e.payload.text, e.key) in Candidates(base, events, id)
    {
    }
  }

  /** What each emitted atom contributes. */
  ghost function Pieces(atoms: Atoms, deleted: set<string>, ids: seq<string>): (pieces: seq<string>)
    requires forall id | id in ids :: id in atoms
    ensures |pieces| == |ids|
    ensures forall i | 0 <= i < |ids| :: pieces[i] == if ids[i] in deleted then "" else atoms[ids[i]].text
  {
    seq(|ids|, i requires 0 <= i < |ids| => assert ids[i] in ids; if ids[i] in deleted then "" else atoms[ids[i]].text)
  }

  lemma {:induction false} RenderIsFlat(atoms: Atoms, deleted: set<string>, ids: seq<string>)
    requires forall id | id in ids :: id in atoms
    ensures Render(atoms, deleted, ids) == Flat(Pieces(atoms, deleted, ids))
    decreases |ids|
  {
    var pieces := Pieces(atoms, deleted, ids);
    if ids != [] {
      var n := |ids| - 1;
      RenderIsFlat(atoms, deleted, ids[..n]);
      assert pieces[..n] == Pieces(atoms, deleted, ids[..n]);
      assert ids[n] in ids;
    }
  }

  /** The text is the texts of the emitted atoms that are not deleted, joined in
      the order of emission. */
  lemma TextIsJoined(rows: Option<Option<seq<Row>>>, events: seq<Event>, result: Projection, base: Atoms, atoms: Atoms,
                     deleted: set<string>, w: Walked, forest: seq<Tree>, late: seq<Tree>) returns (pieces: seq<string>)
    requires ProjectsBy(rows, events, result, base, atoms, deleted, w, forest, late)
    ensures |pieces| == |w.emitted| && result.text == Flat(pieces)
    ensures forall i | 0 <= i < |w.emitted| ::
      w.emitted[i] in atoms && pieces[i] == if w.emitted[i] in deleted then "" else atoms[w.emitted[i]].text
  {
    hide FromRows, KeepsLeast, Contested, Candidates, LeastOnCycle, LateEmitted, Distinct, Grown;
    forall id | id in w.emitted ensures id in atoms { assert Attached(atoms, id); }
    pieces := Pieces(atoms, deleted, w.emitted);
    RenderIsFlat(atoms, deleted, w.emitted);
    forall i | 0 <= i < |w.emitted| ensures w.emitted[i] in atoms { assert w.emitted[i] in w.emitted; }
  }

  /** Siblings stand in the order of their ids. */
  lemma KidsAscend(atoms: Atoms, after: Option<string>)
    ensures forall k :: k in Kids(atoms, after) <==> k in atoms && atoms[k].after == after
    ensures forall i, j | 0 <= i < j < |Kids(atoms, after)| :: StringPrecedes(Kids(atoms, after)[i], Kids(atoms, after)[j])
  {
    var kids := Kids(atoms, after);
    forall i, j | 0 <= i < j < |kids| ensures StringPrecedes(kids[i], kids[j]) { StringLessExactly(kids[i], kids[j]); }
  }

  /* ---------- The order of siblings ---------- */

  /** Roots that follow one atom, which is not among the nodes, in ascending
      order. */
  ghost predicate Brothers(atoms: Atoms, ts: seq<Tree>, after: Option<string>) {
    && (forall t | t in ts :: Grown(atoms, {}, t) && atoms[t.id].after == after)
    && (forall i, j | 0 <= i < j < |ts| :: StringLess(ts[i].id, ts[j].id))
    && (after.Some? ==> after.value !in PreorderAll(ts))
    && Distinct(PreorderAll(ts))
  }

  lemma DistinctParts(a: seq<string>, b: seq<string>)
    requires Distinct(a + b)
    ensures Distinct(a) && Distinct(b) && forall x | x in a :: x !in b
  {
    var c := a + b;
    assert forall i | 0 <= i < |a| :: c[i] == a[i];
    assert forall i | 0 <= i < |b| :: c[|a| + i] == b[i];
    forall i, j | 0 <= i < |a| && 0 <= j < |b| ensures a[i] != b[j] {
      assert c[i] != c[|a| + j];
    }
  }

  lemma RootAndBelow(t: Tree)
    ensures Preorder(t) == [t.id] + PreorderAll(t.kids)
    ensures Distinct(Preorder(t)) ==> Distinct(PreorderAll(t.kids)) && t.id !in PreorderAll(t.kids)
  {
    hide Distinct, PreorderAll;
    if Distinct(Preorder(t)) { DistinctParts([t.id], PreorderAll(t.kids)); }
  }

  lemma KidsAscending(atoms: Atoms, t: Tree)
    requires Grown(atoms, {}, t)
    ensures forall k | k in t.kids :: Grown(atoms, {}, k) && k.id in atoms && atoms[k.id].after == Some(t.id)
    ensures forall i, j | 0 <= i < j < |t.kids| :: StringLess(t.kids[i].id, t.kids[j].id)
  {
    var kids := Kids(atoms, Some(t.id));
    UnblockedAll(kids, {});
    assert Ids(t.kids) == kids;
    hide StringLess, Unblocked, Kids;
    forall k | k in t.kids ensures Grown(atoms, {}, k) && k.id in atoms && atoms[k.id].after == Some(t.id) {
      KidIsChild(atoms, {}, t, k);
    }
    forall i, j | 0 <= i < j < |t.kids| ensures StringLess(t.kids[i].id, t.kids[j].id) {
      assert Ids(t.kids)[i] == kids[i] && Ids(t.kids)[j] == kids[j];
    }
  }

  lemma KidsAreBrothers(atoms: Atoms, t: Tree)
    requires Grown(atoms, {}, t) && Distinct(Preorder(t))
    ensures Brothers(atoms, t.kids, Some(t.id))
  {
    KidsAscending(atoms, t);
    RootAndBelow(t);
    hide Grown, StringLess, Distinct, PreorderAll, Preorder;
  }

  /** The first tree and the others. */
  lemma FewerBrothers(atoms: Atoms, ts: seq<Tree>, after: Option<string>)
    requires Brothers(atoms, ts, after) && ts != []
    ensures Brothers(atoms, ts[1..], after) && Grown(atoms, {}, ts[0]) && Distinct(Preorder(ts[0]))
    ensures forall x | x in Preorder(ts[0]) :: x !in PreorderAll(ts[1..])
    ensures Brothers(atoms, ts[0].kids, Some(ts[0].id)) && atoms[ts[0].id].after == after
  {
    FirstAndMore(ts);
    DistinctParts(Preorder(ts[0]), PreorderAll(ts[1..]));
    KidsAreBrothers(atoms, ts[0]);
    hide Grown, StringLess, PreorderAll, Preorder, Distinct;
  }

  /** A node whose parent is none of the nodes is a root. */
  lemma RootOrBelow(atoms: Atoms, ts: seq<Tree>, after: Option<string>, i: nat)
    requires Brothers(atoms, ts, after) && i < |PreorderAll(ts)|
    ensures var x := PreorderAll(ts)[i];
      x in atoms && if atoms[x].after == after then exists k :: 0 <= k < |ts| && ts[k].id == x
                    else atoms[x].after.Some? && atoms[x].after.value in PreorderAll(ts)
  {
    ParentFirstAll(atoms, {}, ts, i);
    hide PreorderAll, Grown, StringLess;
    if !ParentEarlier(atoms, PreorderAll(ts), i) {
      var t :| t in ts && t.id == PreorderAll(ts)[i];
      RootPlaced(atoms, t);
    }
  }

  lemma RootPlaced(atoms: Atoms, t: Tree)
    ensures Grown(atoms, {}, t) ==> t.id in atoms
  {
  }

  /** A node below the first root follows an atom among the nodes. */
  lemma NotBrother(atoms: Atoms, ts: seq<Tree>, after: Option<string>, i: nat)
    requires Brothers(atoms, ts, after) && ts != [] && 0 < i < |Preorder(ts[0])|
    ensures var x := Preorder(ts[0])[i];
      x in atoms && x == PreorderAll(ts[0].kids)[i - 1] && x in Preorder(ts[0])
      && atoms[x].after != after && atoms[x].after.Some? && atoms[x].after.value in Preorder(ts[0])
  {
    hide *;
    FewerBrothers(atoms, ts, after);
    RootAndBelow(ts[0]);
    RootOrBelow(atoms, ts[0].kids, Some(ts[0].id), i - 1);
    NotAmong(atoms, ts, after);
    FollowsAmong(atoms, ts[0].id, PreorderAll(ts[0].kids), Preorder(ts[0]), i);
    FirstAmong(ts, atoms[Preorder(ts[0])[i]].after.value);
  }

  lemma FollowsAmong(atoms: Atoms, root: string, below: seq<string>, all: seq<string>, i: nat)
    requires all == [root] + below && 0 < i < |all| && below[i - 1] in atoms
    requires var up := atoms[below[i - 1]].after; up == Some(root) || (up.Some? && up.value in below)
    ensures all[i] == below[i - 1] && all[i] in all && atoms[all[i]].after.Some? && atoms[all[i]].after.value in all
  {
    var up := atoms[below[i - 1]].after;
    assert all[0] == root;
    if up != Some(root) { InTail(all, below, up.value); }
  }

  lemma FirstAmong(ts: seq<Tree>, x: string)
    requires ts != [] && x in Preorder(ts[0])
    ensures x in PreorderAll(ts)
  {
    FirstAndMore(ts);
    hide *;
  }

  lemma InTail(all: seq<string>, tail: seq<string>, x: string)
    requires |all| > 0 && all == [all[0]] + tail && x in tail
    ensures x in all
  {
  }

  lemma NotAmong(atoms: Atoms, ts: seq<Tree>, after: Option<string>)
    requires Brothers(atoms, ts, after)
    ensures after.Some? ==> after.value !in PreorderAll(ts)
  {
  }

  ghost predicate InOrder(atoms: Atoms, x: string, y: string) {
    x in atoms && y in atoms && atoms[x].after == atoms[y].after ==> StringLess(x, y)
  }

  lemma NoneInNone(ts: seq<Tree>)
    ensures ts == [] ==> PreorderAll(ts) == []
  {
  }

  /** Where the nodes of a forest stand: in the first tree or in the others. */
  lemma PlaceOf(ts: seq<Tree>, i: nat)
    requires ts != [] && i < |PreorderAll(ts)|
    ensures i == 0 ==> |Preorder(ts[0])| > 0
    ensures i < |Preorder(ts[0])| ==> PreorderAll(ts)[i] == Preorder(ts[0])[i]
    ensures 0 < i < |Preorder(ts[0])| ==>
      |PreorderAll(ts[0].kids)| == |Preorder(ts[0])| - 1 && PreorderAll(ts)[i] == PreorderAll(ts[0].kids)[i - 1]
    ensures i >= |Preorder(ts[0])| ==>
      i - |Preorder(ts[0])| < |PreorderAll(ts[1..])| && PreorderAll(ts)[i] == PreorderAll(ts[1..])[i - |Preorder(ts[0])|]
  {
    FirstAndMore(ts);
    RootAndBelow(ts[0]);
    hide *;
  }

  /** Atoms that follow the same one stand in the order of their ids. */
  lemma {:induction false} BrothersAscend(atoms: Atoms, ts: seq<Tree>, after: Option<string>, i: nat, j: nat)
    requires Brothers(atoms, ts, after) && i < j < |PreorderAll(ts)|
    ensures InOrder(atoms, PreorderAll(ts)[i], PreorderAll(ts)[j])
    decreases ts
  {
    hide *;
    NoneInNone(ts);
    PlaceOf(ts, i);
    PlaceOf(ts, j);
    FewerBrothers(atoms, ts, after);
    var n := |Preorder(ts[0])|;
    if i >= n {
      BrothersAscend(atoms, ts[1..], after, i - n, j - n);
    } else if j >= n {
      SplitInOrder(atoms, ts, after, i, j);
    } else if i == 0 {
      FirstAscends(atoms, ts, after, j);
    } else {
      BrothersAscend(atoms, ts[0].kids, Some(ts[0].id), i - 1, j - 1);
    }
  }

  /** The first root follows what no other node of its tree does. */
  lemma FirstAscends(atoms: Atoms, ts: seq<Tree>, after: Option<string>, j: nat)
    requires Brothers(atoms, ts, after) && ts != [] && 0 < j < |Preorder(ts[0])|
    ensures j < |PreorderAll(ts)|
    ensures InOrder(atoms, PreorderAll(ts)[0], PreorderAll(ts)[j])
  {
    FirstAndMore(ts);
    RootIsFirst(ts[0]);
    RootOrBelow(atoms, ts, after, 0);
    FewerBrothers(atoms, ts, after);
    NotBrother(atoms, ts, after, j);
    hide Brothers, PreorderAll, Preorder, Grown, StringLess, Distinct;
  }

  lemma SplitInOrder(atoms: Atoms, ts: seq<Tree>, after: Option<string>, i: nat, j: nat)
    requires Brothers(atoms, ts, after) && ts != [] && i < |Preorder(ts[0])| <= j < |PreorderAll(ts)|
    ensures InOrder(atoms, PreorderAll(ts)[i], PreorderAll(ts)[j])
  {
    SplitAscend(atoms, ts, after, i, j);
    hide Brothers, PreorderAll, Preorder, StringLess;
  }

  /** Two of them in different trees are roots. */
  lemma SplitAscend(atoms: Atoms, ts: seq<Tree>, after: Option<string>, i: nat, j: nat)
    requires Brothers(atoms, ts, after) && ts != [] && i < |Preorder(ts[0])| <= j < |PreorderAll(ts)|
    ensures var x, y := PreorderAll(ts)[i], PreorderAll(ts)[j];
      x in atoms && y in atoms && atoms[x].after == atoms[y].after ==> StringLess(x, y)
  {
    hide *;
    PlaceOf(ts, i);
    PlaceOf(ts, j);
    FewerBrothers(atoms, ts, after);
    RootOrBelow(atoms, ts[1..], after, j - |Preorder(ts[0])|);
    if i > 0 {
      NotBrother(atoms, ts, after, i);
    } else {
      FirstAndMore(ts);
      RootIsFirst(ts[0]);
      var y := PreorderAll(ts)[j];
      if atoms[y].after == after { FirstPrecedes(atoms, ts, after, y); }
    }
  }

  lemma FirstPrecedes(atoms: Atoms, ts: seq<Tree>, after: Option<string>, y: string)
    requires Brothers(atoms, ts, after) && ts != [] && exists k :: 0 <= k < |ts[1..]| && ts[1..][k].id == y
    ensures StringLess(ts[0].id, y)
  {
    RootsAscend(atoms, ts, after);
    hide *;
    var k :| 0 <= k < |ts[1..]| && ts[1..][k].id == y;
    assert ts[1..][k] == ts[k + 1];
  }

  lemma RootsAscend(atoms: Atoms, ts: seq<Tree>, after: Option<string>)
    requires Brothers(atoms, ts, after)
    ensures forall i, j | 0 <= i < j < |ts| :: StringLess(ts[i].id, ts[j].id)
  {
    hide StringLess;
  }

  /** Below the null-parent roots, siblings are emitted in the order of their
      ids, however far apart their texts put them. */
  lemma SiblingsAscend(atoms: Atoms, deleted: set<string>, w: Walked, forest: seq<Tree>, late: seq<Tree>, i: nat, j: nat)
    requires Projected(atoms, deleted, w, forest, late) && i < j < |PreorderAll(forest)|
    ensures |PreorderAll(forest)| <= |w.emitted|
    ensures var x, y := w.emitted[i], w.emitted[j];
      x in atoms && y in atoms && (atoms[x].after == atoms[y].after ==> StringPrecedes(x, y))
  {
    ForestBrothers(atoms, deleted, w, forest, late);
    BrothersAscend(atoms, forest, None, i, j);
    RootParts(atoms, deleted, w, forest, late);
    hide Projected, StringLess, StringPrecedes, PreorderAll;
    StringLessExactly(w.emitted[i], w.emitted[j]);
  }

  lemma ForestBrothers(atoms: Atoms, deleted: set<string>, w: Walked, forest: seq<Tree>, late: seq<Tree>)
    requires Projected(atoms, deleted, w, forest, late)
    ensures Brothers(atoms, forest, None) && PreorderAll(forest) <= w.emitted
  {
    RootParts(atoms, deleted, w, forest, late);
    ForestDistinct(atoms, deleted, w, forest, late);
    KidsOfNone(atoms, forest, Kids(atoms, None));
    hide StringLess, PreorderAll, Grown, Kids, Projected, Distinct;
  }

  lemma ForestDistinct(atoms: Atoms, deleted: set<string>, w: Walked, forest: seq<Tree>, late: seq<Tree>)
    requires Projected(atoms, deleted, w, forest, late)
    ensures Distinct(PreorderAll(forest))
  {
    hide PreorderAll, Grown, LateGrown, LeastOnCycle, Render, Attached;
    DistinctParts(PreorderAll(forest), PreorderAll(late));
  }

  lemma KidsOfNone(atoms: Atoms, forest: seq<Tree>, kids: seq<string>)
    requires Ids(forest) == kids == Kids(atoms, None)
    ensures forall t | t in forest :: t.id in atoms && atoms[t.id].after.None?
    ensures forall i, j | 0 <= i < j < |forest| :: StringLess(forest[i].id, forest[j].id)
  {
    hide StringLess;
    assert |kids| == |forest| && forall i | 0 <= i < |kids| :: kids[i] == forest[i].id;
    hide Kids, Ids;
    forall t | t in forest ensures t.id in atoms && atoms[t.id].after.None? {
      var i :| 0 <= i < |forest| && forest[i] == t;
      assert kids[i] in kids;
    }
    forall i, j | 0 <= i < j < |forest| ensures StringLess(forest[i].id, forest[j].id) {
      assert StringLess(kids[i], kids[j]);
    }
  }
}
