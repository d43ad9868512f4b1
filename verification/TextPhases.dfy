/** The whole projection: tabling children, visiting the roots, then whatever
    hangs off known atoms, and what the result says about cycles. */
module TextPhases {
  import opened Wrappers
  import opened Orders
  import opened CrdtClock
  import opened TextForest
  import opened TextWalk
  import opened TextProjection

  /* ---------- Children ---------- */

  /** The ids of the list that follow `after`, in list order. */
  ghost function Following(atoms: Atoms, ids: seq<string>, after: Option<string>): seq<string> {
    if ids == [] then []
    else
      var id := ids[|ids| - 1];
      Following(atoms, ids[..|ids| - 1], after) + if id in atoms && atoms[id].after == after then [id] else []
  }

  lemma {:induction false} FollowingAscends(atoms: Atoms, ids: seq<string>, after: Option<string>)
    requires Ascending(StringLess, ids)
    ensures Ascending(StringLess, Following(atoms, ids, after))
    ensures forall id :: id in Following(atoms, ids, after) <==> id in ids && id in atoms && atoms[id].after == after
  {
    if ids != [] {
      var n := |ids| - 1;
      FollowingAscends(atoms, ids[..n], after);
      assert ids == ids[..n] + [ids[n]];
      forall id | id in ids[..n] ensures StringLess(id, ids[n]) {
        var i :| 0 <= i < n && ids[i] == id;
      }
    }
  }

  ghost predicate Tabled(atoms: Atoms, ids: seq<string>, children: map<Option<string>, seq<string>>) {
    forall p: Option<string> | p.None? || p.value in atoms ::
      (if p in children then children[p] else []) == Following(atoms, ids, p)
  }

  lemma TabledAll(atoms: Atoms, ids: seq<string>, children: map<Option<string>, seq<string>>)
    requires Ascending(StringLess, ids) && (forall id :: id in ids <==> id in atoms) && Tabled(atoms, ids, children)
    ensures IsChildTable(atoms, children)
  {
    forall p: Option<string> | p.None? || p.value in atoms
      ensures Kids(atoms, p) == if p in children then children[p] else []
    {
      FollowingAscends(atoms, ids, p);
      StringsAscendingUnique(Kids(atoms, p), Following(atoms, ids, p));
    }
  }

  function AllIds(atoms: Atoms): (ids: seq<string>)
    ensures Ascending(StringLess, ids) && forall id :: id in ids <==> id in atoms
  {
    StringOrder();
    Sorted(StringLess, atoms.Keys)
  }

  /** `d` reports an atom of `ids` whose parent is unknown. */
  ghost predicate MissingIn(atoms: Atoms, ids: set<string>, d: Diagnostic) {
    && d.MissingParent? && d.atomId in ids && d.atomId in atoms
    && atoms[d.atomId].after == Some(d.parent) && d.parent !in atoms
  }

  lemma FollowingAppend(atoms: Atoms, ids: seq<string>, id: string, p: Option<string>)
    ensures Following(atoms, ids + [id], p)
         == Following(atoms, ids, p) + if id in atoms && atoms[id].after == p then [id] else []
  {
    assert (ids + [id])[..|ids|] == ids;
  }

  lemma TableStep(atoms: Atoms, ids: seq<string>, id: string, children: map<Option<string>, seq<string>>,
                  children': map<Option<string>, seq<string>>)
    requires Tabled(atoms, ids, children) && id in atoms
    requires children' == if Attached(atoms, id)
      then children[atoms[id].after := (if atoms[id].after in children then children[atoms[id].after] else []) + [id]]
      else children
    ensures Tabled(atoms, ids + [id], children')
  {
    forall p: Option<string> | p.None? || p.value in atoms
      ensures (if p in children' then children'[p] else []) == Following(atoms, ids + [id], p)
    {
      FollowingAppend(atoms, ids, id, p);
      hide Following;
      assert (if p in children then children[p] else []) == Following(atoms, ids, p);
    }
  }

  /** Tables the placed atoms under their parents and reports the others. */
  method TableChildren(atoms: Atoms, before: set<Diagnostic>)
    returns (children: map<Option<string>, seq<string>>, diagnostics: set<Diagnostic>)
    ensures IsChildTable(atoms, children)
    ensures forall d :: d in diagnostics <==> d in before || MissingIn(atoms, atoms.Keys, d)
  {
    hide *;
    var ids := AllIds(atoms);
    children, diagnostics := map[], before;
    TabledNothing(atoms, before);
    for i := 0 to |ids|
      invariant Tabled(atoms, ids[..i], children)
      invariant MissingReported(atoms, ids[..i], before, diagnostics)
    {
      var id := ids[i];
      ghost var children0, diagnostics0 := children, diagnostics;
      NextId(ids, i);
      AttachedIs(atoms, id);
      if atoms[id].after.Some? && atoms[id].after.value !in atoms {
        diagnostics := diagnostics + {MissingParent(id, atoms[id].after.value)};
      } else {
        var p := atoms[id].after;
        children := children[p := (if p in children then children[p] else []) + [id]];
      }
      TableStep(atoms, ids[..i], id, children0, children);
      MissingStep(atoms, ids[..i], id, before, diagnostics0, diagnostics);
    }
    TakeAll(ids);
    TabledAll(atoms, ids, children);
    MissingAll(atoms, ids, before, diagnostics);
  }

  lemma NextId(ids: seq<string>, i: nat)
    requires i < |ids|
    ensures ids[i] in ids && ids[..i + 1] == ids[..i] + [ids[i]]
  {
  }

  lemma AttachedIs(atoms: Atoms, id: string)
    ensures Attached(atoms, id) <==> id in atoms && !(atoms[id].after.Some? && atoms[id].after.value !in atoms)
  {
  }

  lemma TakeAll(ids: seq<string>)
    ensures ids[..|ids|] == ids
  {
  }

  lemma TabledNothing(atoms: Atoms, before: set<Diagnostic>)
    ensures Tabled(atoms, [], map[]) && MissingReported(atoms, [], before, before)
  {
  }

  ghost predicate MissingReported(atoms: Atoms, ids: seq<string>, before: set<Diagnostic>, after: set<Diagnostic>) {
    forall d :: d in after <==> d in before || MissingIn(atoms, Elements(ids), d)
  }

  lemma MissingStep(atoms: Atoms, ids: seq<string>, id: string, before: set<Diagnostic>, d: set<Diagnostic>, d': set<Diagnostic>)
    requires MissingReported(atoms, ids, before, d) && id in atoms
    requires d' == if Attached(atoms, id) then d else d + {MissingParent(id, atoms[id].after.value)}
    ensures MissingReported(atoms, ids + [id], before, d')
  {
    assert Elements(ids + [id]) == Elements(ids) + {id};
  }

  lemma MissingAll(atoms: Atoms, ids: seq<string>, before: set<Diagnostic>, after: set<Diagnostic>)
    requires MissingReported(atoms, ids, before, after) && forall id :: id in ids <==> id in atoms
    ensures forall d :: d in after <==> d in before || MissingIn(atoms, atoms.Keys, d)
  {
    assert Elements(ids) == atoms.Keys;
  }

  /* ---------- Top-level visits ---------- */

  /** The variables between top-level visits. */
  ghost predicate Resting(atoms: Atoms, deleted: set<string>, w: Walked) {
    Inv(atoms, deleted, w) && w.visiting == {}
  }

  /** A top-level visit of the fresh atom `r` yielded `t`. */
  ghost predicate Started(atoms: Atoms, deleted: set<string>, w: Walked, r: string, w': Walked, t: Tree) {
    && Resting(atoms, deleted, w) && r in atoms && r !in w.visited
    && VisitPost(atoms, deleted, w, r, w.visited, r, w', Some(t))
  }

  lemma TopPre(atoms: Atoms, deleted: set<string>, w: Walked, r: string)
    requires Resting(atoms, deleted, w) && r in atoms && r !in w.visited
    ensures VisitPre(atoms, deleted, w, r, w.visited, r)
  {
  }

  lemma StartedFacts(atoms: Atoms, deleted: set<string>, w: Walked, r: string, w': Walked, t: Tree)
    requires Started(atoms, deleted, w, r, w', t)
    ensures Resting(atoms, deleted, w') && t.id == r && r in Preorder(t) && Grown(atoms, w.visited + {r}, t)
    ensures w'.emitted == w.emitted + Preorder(t) && w'.visited == w.visited + Elements(Preorder(t))
    ensures w'.diagnostics == w.diagnostics + Reported(atoms, r, Preorder(t))
    ensures forall y | y in Preorder(t) :: y !in w.visited
  {
    forall y | y in w.visited ensures y !in Preorder(t) { NewTreeApart(atoms, deleted, w, w', Preorder(t), y); }
  }

  lemma {:induction false} GrownUnblocks(atoms: Atoms, blocked: set<string>, t: Tree)
    requires Grown(atoms, blocked, t)
    requires forall x, y | x in Preorder(t) && ChildOf(atoms, y, x) :: y !in blocked
    ensures Grown(atoms, {}, t)
    decreases t
  {
    assert t.id in Preorder(t);
    UnblockedAll(Kids(atoms, Some(t.id)), blocked);
    UnblockedAll(Kids(atoms, Some(t.id)), {});
    forall k | k in t.kids ensures Grown(atoms, {}, k) {
      forall x, y | x in Preorder(k) && ChildOf(atoms, y, x) ensures y !in blocked {
        PreorderOfKid(t.kids, k, x);
        assert x in Preorder(t);
      }
      GrownUnblocks(atoms, blocked, k);
    }
  }

  /* ---------- Roots ---------- */

  /** After some roots: what is visited hangs off them, the emitted ids are the
      preorder of full trees, and nothing visited is on a cycle. */
  ghost predicate Rooted(atoms: Atoms, deleted: set<string>, w: Walked, done: seq<string>, forest: seq<Tree>,
                         diagnostics: set<Diagnostic>)
  {
    && Resting(atoms, deleted, w) && w.diagnostics == diagnostics
    && Ids(forest) == done && w.emitted == PreorderAll(forest)
    && (forall t | t in forest :: Grown(atoms, {}, t))
    && Hanging(atoms, w.visited, done)
  }

  /** The atoms of `V` hang off the roots `done`, which it contains. */
  ghost predicate Hanging(atoms: Atoms, V: set<string>, done: seq<string>) {
    && (forall y | y in V :: !OnCycle(atoms, y) && Attached(atoms, y))
    && (forall y | y in V :: if atoms[y].after.None? then y in done else atoms[y].after.value in V)
    && (forall r | r in done :: r in V)
  }

  lemma RootHasNoCycle(atoms: Atoms, r: string, y: string)
    requires r in atoms && atoms[r].after.None? && Descends(atoms, y, r)
    ensures !OnCycle(atoms, y)
  {
    assert forall p: nat | p > 0 :: Up(atoms, r, p) == None;
    if OnCycle(atoms, y) {
      var n: nat :| Up(atoms, y, n) == Some(r);
      var m := CycleReturns(atoms, y, n, r);
      assert false;
    }
  }

  lemma RootFull(atoms: Atoms, deleted: set<string>, w: Walked, done: seq<string>, forest: seq<Tree>,
                 diagnostics: set<Diagnostic>, r: string, w': Walked, t: Tree)
    requires Rooted(atoms, deleted, w, done, forest, diagnostics) && atoms.Keys >= {r} && atoms[r].after.None?
    requires Started(atoms, deleted, w, r, w', t)
    ensures Grown(atoms, {}, t)
  {
    StartedFacts(atoms, deleted, w, r, w', t);
    forall x, y | x in Preorder(t) && ChildOf(atoms, y, x) ensures y !in w.visited + {r} {
      assert x !in w.visited;
    }
    hide Grown;
    GrownUnblocks(atoms, w.visited + {r}, t);
  }

  lemma RootNodes(atoms: Atoms, blocked: set<string>, r: string, t: Tree, y: string)
    requires r in atoms && atoms[r].after.None? && Grown(atoms, blocked, t) && t.id == r && y in Preorder(t)
    ensures !OnCycle(atoms, y) && Attached(atoms, y)
    ensures if atoms[y].after.None? then y == r else atoms[y].after.value in Preorder(t)
  {
    TreeLinked(atoms, blocked, t, y);
    RootHasNoCycle(atoms, r, y);
    if y != r { TreeLinked(atoms, blocked, t, atoms[y].after.value); }
  }

  lemma HangingGrows(atoms: Atoms, V: set<string>, done: seq<string>, blocked: set<string>, r: string, t: Tree)
    requires Hanging(atoms, V, done) && r in atoms && atoms[r].after.None? && Grown(atoms, blocked, t) && t.id == r
    ensures Hanging(atoms, V + Elements(Preorder(t)), done + [r])
  {
    forall y | y in Preorder(t)
      ensures !OnCycle(atoms, y) && Attached(atoms, y)
      ensures if atoms[y].after.None? then y == r else atoms[y].after.value in Preorder(t)
    {
      RootNodes(atoms, blocked, r, t, y);
    }
    assert r in Preorder(t);
    hide Grown, OnCycle, Preorder;
  }

  lemma RootStep(atoms: Atoms, deleted: set<string>, w: Walked, done: seq<string>, forest: seq<Tree>,
                 diagnostics: set<Diagnostic>, r: string, w': Walked, t: Tree)
    requires Rooted(atoms, deleted, w, done, forest, diagnostics) && r in atoms && atoms[r].after.None?
    requires Started(atoms, deleted, w, r, w', t)
    ensures Rooted(atoms, deleted, w', done + [r], forest + [t], diagnostics)
  {
    hide Grown, OnCycle, Preorder, PreorderAll, Started, VisitPost, Hanging, Resting;
    RootFull(atoms, deleted, w, done, forest, diagnostics, r, w', t);
    StartedFacts(atoms, deleted, w, r, w', t);
    HangingGrows(atoms, w.visited, done, w.visited + {r}, r, t);
    PreorderAllAppend(forest, t);
    assert Ids(forest + [t]) == Ids(forest) + [r];
  }

  /* ---------- The rest, and cycles ---------- */

  /** Exactly the smallest atoms of visited cycles are reported. */
  ghost predicate CyclesReported(atoms: Atoms, w: Walked) {
    forall c :: Cycle(c) in w.diagnostics <==> c in w.visited && LeastOnCycle(atoms, c)
  }

  lemma LoopIsCycle(atoms: Atoms, blocked: set<string>, r: string, t: Tree)
    requires Grown(atoms, blocked, t) && t.id == r && Follows(atoms, r, Elements(Preorder(t)))
    ensures OnCycle(atoms, r)
  {
    var p := atoms[r].after.value;
    TreeLinked(atoms, blocked, t, p);
    var n: nat :| Up(atoms, p, n) == Some(r);
    assert Up(atoms, r, n + 1) == Some(r);
  }

  lemma CycleIsLoop(atoms: Atoms, before: set<string>, V: set<string>, r: string, ids: seq<string>)
    requires OnCycle(atoms, r) && ClosedDownward(atoms, before) && ClosedDownward(atoms, V)
    requires V == before + Elements(ids) && r in ids && r !in before
    ensures Follows(atoms, r, Elements(ids))
  {
    var n: nat :| n > 0 && Up(atoms, r, n) == Some(r);
    var p := atoms[r].after.value;
    DescendantsInClosed(atoms, V, p, n - 1, r);
  }

  /** A fresh atom is on a cycle exactly when the walk below it reaches its own
      parent. */
  lemma StartLoops(atoms: Atoms, deleted: set<string>, w: Walked, r: string, w': Walked, t: Tree)
    requires Started(atoms, deleted, w, r, w', t)
    ensures Follows(atoms, r, Elements(Preorder(t))) <==> OnCycle(atoms, r)
  {
    assert Resting(atoms, deleted, w) && r !in w.visited;
    hide *;
    StartedFacts(atoms, deleted, w, r, w', t);
    if Follows(atoms, r, Elements(Preorder(t))) { LoopIsCycle(atoms, w.visited + {r}, r, t); }
    if OnCycle(atoms, r) {
      VisitedIsClosed(atoms, deleted, w);
      VisitedIsClosed(atoms, deleted, w');
      CycleIsLoop(atoms, w.visited, w'.visited, r, Preorder(t));
    }
  }

  lemma VisitedIsClosed(atoms: Atoms, deleted: set<string>, w: Walked)
    requires Resting(atoms, deleted, w)
    ensures ClosedDownward(atoms, w.visited)
  {
    forall a | a in atoms && atoms[a].after.Some? && atoms[a].after.value in w.visited ensures a in w.visited {
      assert Follows(atoms, a, w.visited);
    }
  }

  /** A start on a cycle is its smallest atom, all smaller ones having been
      visited with everything below them. */
  lemma StartIsLeast(atoms: Atoms, deleted: set<string>, w: Walked, r: string)
    requires Resting(atoms, deleted, w) && r in atoms && r !in w.visited && OnCycle(atoms, r)
    requires forall b | Attached(atoms, b) && StringLess(b, r) :: b in w.visited
    ensures LeastOnCycle(atoms, r)
  {
    forall b | Descends(atoms, r, b) ensures r == b || StringLess(r, b) {
      var n: nat :| Up(atoms, r, n) == Some(b);
      var m := CycleReturns(atoms, r, n, b);
      CycleAttached(atoms, b);
      if StringLess(b, r) {
        VisitedIsClosed(atoms, deleted, w);
        DescendantsInClosed(atoms, w.visited, r, n, b);
        assert false;
      }
      StringTrichotomy(r, b);
    }
  }

  lemma StringTrichotomy(a: string, b: string)
    ensures StringLess(a, b) || a == b || StringLess(b, a)
    ensures !(StringLess(a, b) && StringLess(b, a))
  {
    StringOrder();
  }

  lemma CycleAttached(atoms: Atoms, a: string)
    requires OnCycle(atoms, a)
    ensures Attached(atoms, a)
  {
    var n: nat :| n > 0 && Up(atoms, a, n) == Some(a);
  }

  /** The least atom of a cycle in the tree of a start is the start. */
  lemma LeastInTreeIsStart(atoms: Atoms, deleted: set<string>, w: Walked, r: string, w': Walked, t: Tree, c: string)
    requires Started(atoms, deleted, w, r, w', t) && c in Preorder(t) && LeastOnCycle(atoms, c)
    requires forall b | Attached(atoms, b) && StringLess(b, r) :: b in w.visited
    ensures c == r
  {
    StartedFacts(atoms, deleted, w, r, w', t);
    TreeLinked(atoms, w.visited + {r}, t, c);
    var n: nat :| Up(atoms, c, n) == Some(r);
    var m := CycleReturns(atoms, c, n, r);
    StartIsLeast(atoms, deleted, w, r);
    assert Descends(atoms, r, c);
    StringTrichotomy(r, c);
  }

  lemma ReportGrows(atoms: Atoms, w: Walked, r: string, ids: seq<string>, w': Walked)
    requires CyclesReported(atoms, w) && r in ids && r !in w.visited
    requires w'.visited == w.visited + Elements(ids)
    requires w'.diagnostics == w.diagnostics + if OnCycle(atoms, r) then {Cycle(r)} else {}
    requires OnCycle(atoms, r) <==> LeastOnCycle(atoms, r)
    requires forall c | c in ids && LeastOnCycle(atoms, c) :: c == r
    ensures CyclesReported(atoms, w')
  {
    hide OnCycle, LeastOnCycle;
  }

  lemma StartReports(atoms: Atoms, deleted: set<string>, w: Walked, r: string, w': Walked, t: Tree)
    requires Started(atoms, deleted, w, r, w', t) && CyclesReported(atoms, w)
    requires forall b | Attached(atoms, b) && StringLess(b, r) :: b in w.visited
    ensures CyclesReported(atoms, w')
  {
    StartedFacts(atoms, deleted, w, r, w', t);
    StartLoops(atoms, deleted, w, r, w', t);
    if OnCycle(atoms, r) { StartIsLeast(atoms, deleted, w, r); }
    assert LeastOnCycle(atoms, r) ==> OnCycle(atoms, r);
    hide Resting, Grown, Preorder, LeastOnCycle, OnCycle, Follows, CyclesReported, VisitPost;
    forall c | c in Preorder(t) && LeastOnCycle(atoms, c) ensures c == r {
      LeastInTreeIsStart(atoms, deleted, w, r, w', t, c);
    }
    ReportGrows(atoms, w, r, Preorder(t), w');
  }

  /** Trees started after `ids` were emitted: each from the least placed atom
      left, blocked by everything emitted before it. */
  ghost predicate LateGrown(atoms: Atoms, ids: seq<string>, late: seq<Tree>)
    decreases |late|
  {
    late == []
    || (var n := |late| - 1;
        var r, done := late[n].id, Elements(ids + PreorderAll(late[..n]));
        && LateGrown(atoms, ids, late[..n])
        && LeastLeft(atoms, done, r) && Grown(atoms, done + {r}, late[n]))
  }

  ghost predicate LeastLeft(atoms: Atoms, done: set<string>, r: string) {
    Attached(atoms, r) && r !in done && forall b | Attached(atoms, b) && StringLess(b, r) :: b in done
  }

  /** Everything emitted is the preorder of the roots' trees, then of the later
      ones. */
  ghost predicate LateEmitted(atoms: Atoms, emitted: seq<string>, forest: seq<Tree>, late: seq<Tree>) {
    emitted == PreorderAll(forest) + PreorderAll(late) && LateGrown(atoms, PreorderAll(forest), late)
  }

  lemma NoneLate(atoms: Atoms, emitted: seq<string>, forest: seq<Tree>)
    requires emitted == PreorderAll(forest)
    ensures LateEmitted(atoms, emitted, forest, [])
  {
  }

  lemma LateStep(atoms: Atoms, deleted: set<string>, w: Walked, forest: seq<Tree>, late: seq<Tree>, done: seq<string>,
                 r: string, w': Walked, t: Tree)
    requires LateEmitted(atoms, w.emitted, forest, late) && Sweeping(atoms, deleted, w, forest, done)
    requires Started(atoms, deleted, w, r, w', t) && Attached(atoms, r)
    requires forall b | b in atoms && StringLess(b, r) :: b in done
    ensures LateEmitted(atoms, w'.emitted, forest, late + [t])
  {
    hide *;
    StartedFacts(atoms, deleted, w, r, w', t);
    StartsLeast(atoms, deleted, w, forest, done, r, w', t);
    LateAppend(atoms, w.emitted, forest, late, r, t);
  }

  lemma StartsLeast(atoms: Atoms, deleted: set<string>, w: Walked, forest: seq<Tree>, done: seq<string>, r: string,
                    w': Walked, t: Tree)
    requires Sweeping(atoms, deleted, w, forest, done) && Started(atoms, deleted, w, r, w', t) && Attached(atoms, r)
    requires forall b | b in atoms && StringLess(b, r) :: b in done
    ensures w.visited == Elements(w.emitted) && LeastLeft(atoms, Elements(w.emitted), r)
  {
    RestingIds(atoms, deleted, w);
    hide Inv, VisitPost, CyclesReported, StringLess, PreorderAll;
  }

  lemma LateAppend(atoms: Atoms, emitted: seq<string>, forest: seq<Tree>, late: seq<Tree>, r: string, t: Tree)
    requires LateEmitted(atoms, emitted, forest, late) && LeastLeft(atoms, Elements(emitted), r)
    requires t.id == r && Grown(atoms, Elements(emitted) + {r}, t)
    ensures LateEmitted(atoms, emitted + Preorder(t), forest, late + [t])
  {
    hide Grown, LeastLeft, Preorder, PreorderAll;
    PreorderAllAppend(late, t);
    var longer := late + [t];
    assert longer[..|late|] == late && longer[|late|] == t;
    assert emitted + Preorder(t) == PreorderAll(forest) + (PreorderAll(late) + Preorder(t));
  }

  lemma RestingIds(atoms: Atoms, deleted: set<string>, w: Walked)
    requires Resting(atoms, deleted, w)
    ensures w.visited == Elements(w.emitted)
  {
  }

  /** What the projection promises: exactly the placed atoms are emitted, each
      once; the text renders them; the atoms under null-parent roots come first,
      in preorder with ascending siblings, then what else is placed, as trees
      from the least atom left; and exactly the smallest atom of each cycle is
      reported as a cycle. */
  ghost predicate Projected(atoms: Atoms, deleted: set<string>, w: Walked, forest: seq<Tree>, late: seq<Tree>) {
    && Distinct(w.emitted) && (forall a :: a in w.emitted <==> Attached(atoms, a))
    && w.output == Render(atoms, deleted, w.emitted)
    && Ids(forest) == Kids(atoms, None) && (forall t | t in forest :: Grown(atoms, {}, t))
    && LateEmitted(atoms, w.emitted, forest, late)
    && forall c :: Cycle(c) in w.diagnostics <==> LeastOnCycle(atoms, c)
  }

  /** During the last phase, after the ids before `i` of `ids`. */
  ghost predicate Sweeping(atoms: Atoms, deleted: set<string>, w: Walked, forest: seq<Tree>, done: seq<string>) {
    && Resting(atoms, deleted, w) && CyclesReported(atoms, w) && PreorderAll(forest) <= w.emitted
    && (forall y | y in w.visited :: Attached(atoms, y))
    && (forall r | r in Kids(atoms, None) :: r in w.visited)
    && (forall a | a in done && Attached(atoms, a) :: a in w.visited)
  }

  lemma SweepStarts(atoms: Atoms, deleted: set<string>, w: Walked, forest: seq<Tree>, before: set<Diagnostic>)
    requires Rooted(atoms, deleted, w, Kids(atoms, None), forest, before) && forall c :: Cycle(c) !in before
    ensures Sweeping(atoms, deleted, w, forest, [])
  {
    hide Inv, Grown;
    assert forall c | LeastOnCycle(atoms, c) :: OnCycle(atoms, c);
  }

  lemma SweepStep(atoms: Atoms, deleted: set<string>, w: Walked, forest: seq<Tree>, done: seq<string>, r: string,
                  w': Walked, t: Tree)
    requires Sweeping(atoms, deleted, w, forest, done) && Started(atoms, deleted, w, r, w', t) && Attached(atoms, r)
    requires forall b | b in atoms && StringLess(b, r) :: b in done
    ensures Sweeping(atoms, deleted, w', forest, done + [r])
  {
    StartReports(atoms, deleted, w, r, w', t);
    StartedFacts(atoms, deleted, w, r, w', t);
    forall y | y in Preorder(t) ensures Attached(atoms, y) {
      TreeLinked(atoms, w.visited + {r}, t, y);
      if y != r { TreeLinked(atoms, w.visited + {r}, t, atoms[y].after.value); }
    }
    hide Inv, Grown, Started, Preorder, PreorderAll, CyclesReported;
  }

  lemma SweptAll(atoms: Atoms, deleted: set<string>, w: Walked, forest: seq<Tree>, done: seq<string>)
    requires Sweeping(atoms, deleted, w, forest, done) && forall a | a in atoms :: a in done
    ensures forall a :: a in w.emitted <==> Attached(atoms, a)
    ensures Distinct(w.emitted) && w.output == Render(atoms, deleted, w.emitted)
    ensures CyclesReported(atoms, w) && PreorderAll(forest) <= w.emitted
    ensures Elements(w.emitted) <= w.visited + w.visiting && w.visiting == {}
  {
    hide CyclesReported, Distinct, Render;
    assert forall a :: a in w.emitted <==> a in Elements(w.emitted);
  }

  lemma AllCyclesVisited(atoms: Atoms, w: Walked)
    requires CyclesReported(atoms, w) && Elements(w.emitted) <= w.visited + w.visiting && w.visiting == {}
    requires forall a | Attached(atoms, a) :: a in w.emitted
    ensures forall c :: Cycle(c) in w.diagnostics <==> LeastOnCycle(atoms, c)
  {
    forall c | LeastOnCycle(atoms, c) ensures c in w.visited {
      CycleAttached(atoms, c);
      assert c in Elements(w.emitted);
    }
    hide LeastOnCycle, Attached;
  }

  lemma SweepEnds(atoms: Atoms, deleted: set<string>, w: Walked, forest: seq<Tree>, late: seq<Tree>, done: seq<string>)
    requires Sweeping(atoms, deleted, w, forest, done) && forall a | a in atoms :: a in done
    requires Ids(forest) == Kids(atoms, None) && forall t | t in forest :: Grown(atoms, {}, t)
    requires LateEmitted(atoms, w.emitted, forest, late)
    ensures Projected(atoms, deleted, w, forest, late)
  {
    hide LateEmitted, LeastOnCycle, Distinct, Grown, Render, Attached, CyclesReported, Sweeping, PreorderAll, Ids, Elements;
    SweptAll(atoms, deleted, w, forest, done);
    AllCyclesVisited(atoms, w);
  }

  method VisitRoots(walk: Walk, roots: seq<string>) returns (ghost forest: seq<Tree>)
    requires walk.Valid() && walk.Value() == Walked({}, {}, walk.diagnostics, "", [])
    requires roots == Kids(walk.atoms, None)
    modifies walk`visiting, walk`visited, walk`diagnostics, walk`output, walk`emitted
    ensures walk.Valid() && Rooted(walk.atoms, walk.deleted, walk.Value(), roots, forest, old(walk.diagnostics))
  {
    hide *;
    ghost var before := walk.diagnostics;
    forest := [];
    walk.ValueParts();
    RootedEmpty(walk.atoms, walk.deleted, walk.Value(), before);
    for i := 0 to |roots|
      invariant walk.Valid() && Rooted(walk.atoms, walk.deleted, walk.Value(), roots[..i], forest, before)
    {
      ghost var w := walk.Value();
      var r := roots[i];
      assert roots[..i + 1] == roots[..i] + [r];
      RootIsFresh(walk.atoms, walk.deleted, w, roots, i, forest, before);
      TopPre(walk.atoms, walk.deleted, w, r);
      walk.ValueParts();
      ghost var t := walk.Visit(r, w.visited, r);
      walk.ValueParts();
      StartedIntro(walk.atoms, walk.deleted, w, r, walk.Value(), t);
      RootStep(walk.atoms, walk.deleted, w, roots[..i], forest, before, r, walk.Value(), t.value);
      forest := forest + [t.value];
    }
    assert roots[..|roots|] == roots;
  }

  lemma RootedEmpty(atoms: Atoms, deleted: set<string>, w: Walked, before: set<Diagnostic>)
    requires w == Walked({}, {}, before, "", []) && Inv(atoms, deleted, w)
    ensures Rooted(atoms, deleted, w, [], [], before)
  {
  }

  lemma RootIsFresh(atoms: Atoms, deleted: set<string>, w: Walked, roots: seq<string>, i: nat, forest: seq<Tree>,
                    before: set<Diagnostic>)
    requires roots == Kids(atoms, None) && i < |roots| && Rooted(atoms, deleted, w, roots[..i], forest, before)
    ensures Resting(atoms, deleted, w) && roots[i] in atoms && atoms[roots[i]].after.None? && roots[i] !in w.visited
  {
    assert roots[i] in roots;
    assert roots[i] !in roots[..i];
  }

  lemma StartedIntro(atoms: Atoms, deleted: set<string>, w: Walked, r: string, w': Walked, t: Option<Tree>)
    requires Resting(atoms, deleted, w) && r in atoms && r !in w.visited
    requires VisitPost(atoms, deleted, w, r, w.visited, r, w', t)
    ensures t.Some? && Started(atoms, deleted, w, r, w', t.value)
  {
  }

  /** The last phase. */
  method Sweep(walk: Walk, ids: seq<string>, ghost forest: seq<Tree>) returns (ghost late: seq<Tree>)
    requires walk.Valid() && ids == AllIds(walk.atoms)
    requires Sweeping(walk.atoms, walk.deleted, walk.Value(), forest, []) && walk.emitted == PreorderAll(forest)
    modifies walk`visiting, walk`visited, walk`diagnostics, walk`output, walk`emitted
    ensures walk.Valid() && Sweeping(walk.atoms, walk.deleted, walk.Value(), forest, ids)
    ensures LateEmitted(walk.atoms, walk.emitted, forest, late)
    ensures OnlyCyclesAdded(old(walk.diagnostics), walk.diagnostics)
  {
    hide *;
    ghost var before := walk.diagnostics;
    NothingAdded(before);
    late := [];
    NoneLate(walk.atoms, walk.emitted, forest);
    for i := 0 to |ids|
      invariant walk.Valid() && Sweeping(walk.atoms, walk.deleted, walk.Value(), forest, ids[..i])
      invariant OnlyCyclesAdded(before, walk.diagnostics) && LateEmitted(walk.atoms, walk.emitted, forest, late)
    {
      ghost var w := walk.Value();
      var r := ids[i];
      assert ids[..i + 1] == ids[..i] + [r] && r in ids;
      SmallerDone(walk.atoms, ids, i);
      SweepRests(walk.atoms, walk.deleted, w, forest, ids[..i], r);
      walk.ValueParts();
      if r !in walk.visited && walk.atoms[r].after.Some? && walk.atoms[r].after.value in walk.atoms {
        TopPre(walk.atoms, walk.deleted, w, r);
        ghost var t := walk.Visit(r, w.visited, r);
        walk.ValueParts();
        StartedIntro(walk.atoms, walk.deleted, w, r, walk.Value(), t);
        SweepStep(walk.atoms, walk.deleted, w, forest, ids[..i], r, walk.Value(), t.value);
        LateStep(walk.atoms, walk.deleted, w, forest, late, ids[..i], r, walk.Value(), t.value);
        late := late + [t.value];
        StartAddsCycles(walk.atoms, walk.deleted, w, r, walk.Value(), t.value, before);
      } else {
        SweepSkips(walk.atoms, walk.deleted, w, forest, ids[..i], r);
      }
    }
    assert ids[..|ids|] == ids;
  }

  lemma NothingAdded(before: set<Diagnostic>)
    ensures OnlyCyclesAdded(before, before)
  {
  }

  ghost predicate OnlyCyclesAdded(before: set<Diagnostic>, after: set<Diagnostic>) {
    before <= after && forall d | d in after && d !in before :: d.Cycle?
  }

  lemma StartAddsCycles(atoms: Atoms, deleted: set<string>, w: Walked, r: string, w': Walked, t: Tree, before: set<Diagnostic>)
    requires Started(atoms, deleted, w, r, w', t) && OnlyCyclesAdded(before, w.diagnostics)
    ensures OnlyCyclesAdded(before, w'.diagnostics)
  {
  }

  lemma SmallerDone(atoms: Atoms, ids: seq<string>, i: nat)
    requires ids == AllIds(atoms) && i < |ids|
    ensures forall b | b in atoms && StringLess(b, ids[i]) :: b in ids[..i]
  {
    hide StringLess;
    forall j | i <= j < |ids| ensures !StringLess(ids[j], ids[i]) {
      StringTrichotomy(ids[j], ids[i]);
    }
    forall b | b in atoms && StringLess(b, ids[i]) ensures b in ids[..i] {
      assert b in ids;
      var j :| 0 <= j < |ids| && ids[j] == b;
      assert ids[..i][j] == b;
    }
  }

  lemma SweepRests(atoms: Atoms, deleted: set<string>, w: Walked, forest: seq<Tree>, done: seq<string>, r: string)
    requires Sweeping(atoms, deleted, w, forest, done)
    ensures Resting(atoms, deleted, w)
    ensures Attached(atoms, r) <==> r in atoms && (atoms[r].after.Some? ==> atoms[r].after.value in atoms)
  {
  }

  lemma SweepSkips(atoms: Atoms, deleted: set<string>, w: Walked, forest: seq<Tree>, done: seq<string>, r: string)
    requires Sweeping(atoms, deleted, w, forest, done)
    requires r in atoms && (r in w.visited || atoms[r].after.None? || !Attached(atoms, r))
    ensures Sweeping(atoms, deleted, w, forest, done + [r])
  {
    hide CyclesReported, Resting;
    assert atoms[r].after.None? ==> r in Kids(atoms, None);
  }

  /** Visits the roots, then every unvisited atom that follows a known one. */
  method WalkAll(atoms: Atoms, children: map<Option<string>, seq<string>>, deleted: set<string>, before: set<Diagnostic>)
    returns (text: string, diagnostics: set<Diagnostic>, ghost w: Walked, ghost forest: seq<Tree>, ghost late: seq<Tree>)
    requires IsChildTable(atoms, children) && forall c :: Cycle(c) !in before
    ensures Projected(atoms, deleted, w, forest, late) && text == w.output && diagnostics == w.diagnostics
    ensures OnlyCyclesAdded(before, diagnostics)
  {
    var walk := new Walk(atoms, children, deleted, before);
    var roots := if None in children then children[None] else [];
    assert roots == Kids(atoms, None);
    hide Inv, Grown, VisitPre, VisitPost, IsChildTable, Distinct;
    forest := VisitRoots(walk, roots);
    RootedKeeps(atoms, deleted, walk.Value(), roots, forest, before);
    SweepStarts(atoms, deleted, walk.Value(), forest, before);
    var ids := AllIds(atoms);
    late := Sweep(walk, ids, forest);
    SweepEnds(atoms, deleted, walk.Value(), forest, late, ids);
    w, text, diagnostics := walk.Value(), walk.output, walk.diagnostics;
  }

  lemma RootedKeeps(atoms: Atoms, deleted: set<string>, w: Walked, roots: seq<string>, forest: seq<Tree>, before: set<Diagnostic>)
    requires Rooted(atoms, deleted, w, roots, forest, before)
    ensures w.diagnostics == before && OnlyCyclesAdded(before, w.diagnostics) && w.emitted == PreorderAll(forest)
    ensures Ids(forest) == roots && forall t | t in forest :: Grown(atoms, {}, t)
  {
  }

  datatype Projection = Projection(text: string, diagnostics: set<Diagnostic>)

  /** The rows of a bootstrap that is there and readable. */
  function Known(rows: Option<Option<seq<Row>>>): seq<Row> { if rows.Some? && rows.value.Some? then rows.value.value else [] }

  /** What every projection of a bootstrap and a list of operations satisfies,
      with the atoms chosen and the walk that was made. */
  ghost predicate ProjectsBy(rows: Option<Option<seq<Row>>>, events: seq<Event>, result: Projection, base: Atoms, atoms: Atoms,
                             deleted: set<string>, w: Walked, forest: seq<Tree>, late: seq<Tree>)
  {
    && FromRows(Known(rows), base) && KeepsLeast(base, events, atoms)
    && (forall id :: id in deleted <==>
          (exists row :: row in Known(rows) && row.Row? && row.deleted && row.atomId == id)
          || exists e :: e in events && e.payload == Delete(id))
    && Projected(atoms, deleted, w, forest, late)
    && result.text == w.output
    && (forall c :: Cycle(c) in result.diagnostics <==> LeastOnCycle(atoms, c))
    && (forall a, p :: MissingParent(a, p) in result.diagnostics <==> a in atoms && atoms[a].after == Some(p) && p !in atoms)
    && (forall a :: AtomEquivocation(a) in result.diagnostics <==> Contested(Candidates(base, events, a), atoms, a))
    && (forall k :: InvalidPayload(k) in result.diagnostics <==> Event(k, BadPayload) in events)
    && (InvalidBootstrap in result.diagnostics <==> rows == Some(None) || BadRow in Known(rows))
  }

  ghost predicate Projects(rows: Option<Option<seq<Row>>>, events: seq<Event>, result: Projection) {
    exists base: Atoms, atoms: Atoms, deleted: set<string>, w: Walked, forest: seq<Tree>, late: seq<Tree> ::
      ProjectsBy(rows, events, result, base, atoms, deleted, w, forest, late)
  }

  lemma NoCyclesYet(base: Atoms, events: seq<Event>, atoms: Atoms, start: set<Diagnostic>, reported: set<Diagnostic>,
                    placed: set<Diagnostic>)
    requires ReportsEvents(base, events, atoms, start, reported) && start <= {InvalidBootstrap}
    requires forall d :: d in placed <==> d in reported || MissingIn(atoms, atoms.Keys, d)
    ensures forall c :: Cycle(c) !in placed
  {
    hide Contested;
  }

  lemma DiagnosticsExact(base: Atoms, events: seq<Event>, atoms: Atoms, start: set<Diagnostic>, reported: set<Diagnostic>,
                         placed: set<Diagnostic>, end: set<Diagnostic>)
    requires ReportsEvents(base, events, atoms, start, reported) && start <= {InvalidBootstrap}
    requires forall d :: d in placed <==> d in reported || MissingIn(atoms, atoms.Keys, d)
    requires OnlyCyclesAdded(placed, end)
    ensures forall a, p :: MissingParent(a, p) in end <==> a in atoms && atoms[a].after == Some(p) && p !in atoms
    ensures forall a :: AtomEquivocation(a) in end <==> Contested(Candidates(base, events, a), atoms, a)
    ensures forall k :: InvalidPayload(k) in end <==> Event(k, BadPayload) in events
    ensures InvalidBootstrap in end <==> start == {InvalidBootstrap}
  {
    hide Contested, Candidates;
    assert forall d: Diagnostic | !d.Cycle? :: d in end <==> d in placed;
  }

  /** The projection of a replica: an absent, unreadable or readable bootstrap
      and the operations in their listed order. */
  method Project(rows: Option<Option<seq<Row>>>, events: seq<Event>) returns (result: Projection)
    ensures Projects(rows, events, result)
  {
    hide FromRows, KeepsLeast, Projected, Contested, Candidates, LeastOnCycle, IsChildTable, ReportsEvents, MissingIn, OnlyCyclesAdded;
    var known := Known(rows);
    var base, baseDeleted, bad := Bootstrap(known);
    var start: set<Diagnostic> := if rows == Some(None) || bad then {InvalidBootstrap} else {};
    var atoms, deleted, reported := Absorb(base, baseDeleted, start, events);
    var children, placed := TableChildren(atoms, reported);
    NoCyclesYet(base, events, atoms, start, reported, placed);
    var text, diagnostics;
    ghost var w, forest, late;
    text, diagnostics, w, forest, late := WalkAll(atoms, children, deleted, placed);
    DiagnosticsExact(base, events, atoms, start, reported, placed, diagnostics);
    ProjectedCycles(atoms, deleted, w, forest, late);
    result := Projection(text, diagnostics);
    assert ProjectsBy(rows, events, result, base, atoms, deleted, w, forest, late);
  }

  lemma ProjectedCycles(atoms: Atoms, deleted: set<string>, w: Walked, forest: seq<Tree>, late: seq<Tree>)
    requires Projected(atoms, deleted, w, forest, late)
    ensures forall c :: Cycle(c) in w.diagnostics <==> LeastOnCycle(atoms, c)
  {
  }

  /** Below the null-parent roots every atom of the text comes after its
      parent. */
  lemma RootTextInOrder(atoms: Atoms, deleted: set<string>, w: Walked, forest: seq<Tree>, late: seq<Tree>, i: nat)
    requires Projected(atoms, deleted, w, forest, late) && i < |PreorderAll(forest)|
    ensures |PreorderAll(forest)| <= |w.emitted| && w.emitted[i] in atoms
    ensures atoms[w.emitted[i]].after.None? || ParentEarlier(atoms, w.emitted, i)
  {
    hide *;
    var ids := PreorderAll(forest);
    RootParts(atoms, deleted, w, forest, late);
    ParentFirstAll(atoms, {}, forest, i);
    if ParentEarlier(atoms, ids, i) {
      EarlierShifts(atoms, [], ids, PreorderAll(late), i);
    } else {
      var t :| t in forest && t.id == ids[i];
      RootIs(atoms, forest, t);
    }
  }

  lemma RootParts(atoms: Atoms, deleted: set<string>, w: Walked, forest: seq<Tree>, late: seq<Tree>)
    requires Projected(atoms, deleted, w, forest, late)
    ensures w.emitted == [] + PreorderAll(forest) + PreorderAll(late)
    ensures forall i | 0 <= i < |PreorderAll(forest)| :: w.emitted[i] == PreorderAll(forest)[i] && w.emitted[i] in atoms
    ensures Ids(forest) == Kids(atoms, None) && forall t | t in forest :: Grown(atoms, {}, t)
  {
    hide Grown, Render, LeastOnCycle, Distinct, LateGrown, PreorderAll;
    forall i | 0 <= i < |PreorderAll(forest)| ensures w.emitted[i] in atoms {
      assert w.emitted[i] in w.emitted;
    }
  }

  lemma RootIs(atoms: Atoms, forest: seq<Tree>, t: Tree)
    requires Ids(forest) == Kids(atoms, None) && t in forest
    ensures t.id in atoms && atoms[t.id].after.None?
  {
    var k :| 0 <= k < |forest| && forest[k] == t;
    assert Ids(forest)[k] == t.id && t.id in Kids(atoms, None);
  }

  /** Each parent cycle is reported once: exactly one atom reached from an atom
      on it is named. */
  lemma OneReportPerCycle(rows: Option<Option<seq<Row>>>, events: seq<Event>, result: Projection, base: Atoms, atoms: Atoms,
                          deleted: set<string>, w: Walked, forest: seq<Tree>, late: seq<Tree>, a: string) returns (c: string)
    requires ProjectsBy(rows, events, result, base, atoms, deleted, w, forest, late) && OnCycle(atoms, a)
    ensures Cycle(c) in result.diagnostics && Descends(atoms, a, c)
    ensures forall d | Cycle(d) in result.diagnostics && Descends(atoms, a, d) :: d == c
  {
    hide KeepsLeast, Projected, Contested, Candidates, LeastOnCycle, FromRows, OnCycle, Descends;
    c := OneLeastPerCycle(atoms, a);
  }
}
