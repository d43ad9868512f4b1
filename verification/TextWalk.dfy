/** The depth-first walk that turns placed atoms into text. */
module TextWalk {
  import opened Wrappers
  import opened Orders
  import opened CrdtClock
  import opened TextForest

  datatype Diagnostic =
    | InvalidBootstrap
    | InvalidPayload(key: Key)
    | AtomEquivocation(atomId: string)
    | MissingParent(atomId: string, parent: string)
    | Cycle(atomId: string)

  /** The texts of the atoms that are not deleted, in the order given. */
  ghost function Render(atoms: Atoms, deleted: set<string>, ids: seq<string>): string {
    if ids == [] then ""
    else
      var a := ids[|ids| - 1];
      Render(atoms, deleted, ids[..|ids| - 1]) + if a in atoms && a !in deleted then atoms[a].text else ""
  }

  ghost predicate Distinct(ids: seq<string>) {
    forall i, j | 0 <= i < j < |ids| :: ids[i] != ids[j]
  }

  /** The table of children: the ascending children of every parent that has
      any and is known. */
  ghost predicate IsChildTable(atoms: Atoms, children: map<Option<string>, seq<string>>) {
    forall p: Option<string> | p.None? || p.value in atoms ::
      Kids(atoms, p) == if p in children then children[p] else []
  }

  /** The walk's variables, with the atoms entered so far in order. */
  datatype Walked = Walked(
    visiting: set<string>,
    visited: set<string>,
    diagnostics: set<Diagnostic>,
    output: string,
    emitted: seq<string>)
  {
    ghost function Entered(): set<string> { visited + visiting }
  }

  ghost function Elements(ids: seq<string>): set<string> { set x | x in ids }

  ghost predicate Follows(atoms: Atoms, y: string, entered: set<string>) {
    y in atoms && atoms[y].after.Some? && atoms[y].after.value in entered
  }

  /** Entered atoms are emitted once, the output is their rendering, and the
      children of finished atoms have been entered. */
  ghost predicate Inv(atoms: Atoms, deleted: set<string>, w: Walked) {
    && w.visited !! w.visiting && w.Entered() <= atoms.Keys
    && Elements(w.emitted) == w.Entered() && Distinct(w.emitted)
    && w.output == Render(atoms, deleted, w.emitted)
    && forall x | Follows(atoms, x, w.visited) :: x in w.Entered()
  }

  /** Whatever was entered since the top-level visit of `root` began, when
      `before` was finished, follows something entered. */
  ghost predicate Context(atoms: Atoms, w: Walked, before: set<string>, root: string) {
    && before <= w.visited && root !in before && root in atoms
    && (w.visiting != {} ==> root in w.visiting)
    && forall y | y in w.Entered() && y !in before && y != root :: Follows(atoms, y, w.Entered())
  }

  ghost predicate VisitPre(atoms: Atoms, deleted: set<string>, w: Walked, a: string, before: set<string>, root: string) {
    && Inv(atoms, deleted, w) && Context(atoms, w, before, root) && a in atoms
    && (a in w.visiting ==> a == root)
    && (a in w.visited ==> a in before)
    && (a !in w.Entered() ==> if w.visiting == {} then a == root else a != root && Follows(atoms, a, w.visiting))
  }

  ghost function Reported(atoms: Atoms, root: string, ids: seq<string>): set<Diagnostic> {
    if Follows(atoms, root, Elements(ids)) then {Cycle(root)} else {}
  }

  /** A fresh atom is entered with everything below it that was not blocked,
      as the preorder of a grown tree; a cycle is reported when that reaches
      the parent of the atom the top-level visit started from. */
  ghost predicate VisitPost(atoms: Atoms, deleted: set<string>, w: Walked, a: string, before: set<string>, root: string,
                            w': Walked, t: Option<Tree>)
  {
    && Inv(atoms, deleted, w') && Context(atoms, w', before, root) && w'.visiting == w.visiting
    && match t
       case None =>
         a in w.Entered() && w' == w.(diagnostics := w.diagnostics + if a in w.visiting then {Cycle(a)} else {})
       case Some(tree) =>
         && a !in w.Entered() && tree.id == a && Grown(atoms, before + {root}, tree)
         && w'.emitted == w.emitted + Preorder(tree)
         && w'.visited == w.visited + Elements(Preorder(tree))
         && w'.diagnostics == w.diagnostics + Reported(atoms, root, Preorder(tree))
  }

  /** Between two children of `a`, entered in state `w0`; `done` is the part of
      its children that has been tried and `trees` what came of it. */
  ghost predicate Descending(atoms: Atoms, deleted: set<string>, w0: Walked, a: string, before: set<string>, root: string,
                             w: Walked, done: seq<string>, trees: seq<Tree>)
  {
    && Inv(atoms, deleted, w) && Context(atoms, w, before, root)
    && w.visiting == w0.visiting + {a}
    && w.emitted == w0.emitted + [a] + PreorderAll(trees)
    && w.visited == w0.visited + Elements(PreorderAll(trees))
    && Ids(trees) == Unblocked(done, before + {root})
    && (forall k | k in trees :: Grown(atoms, before + {root}, k) && ChildOf(atoms, k.id, a))
    && (forall y | y in done :: y in w.Entered())
    && (forall y | ChildOf(atoms, y, a) && y !in done && y !in before && y != root :: y !in w.Entered())
    && w.diagnostics == w0.diagnostics
         + if root in done || Follows(atoms, root, Elements(PreorderAll(trees))) then {Cycle(root)} else {}
  }

  lemma RenderAppend(atoms: Atoms, deleted: set<string>, ids: seq<string>, a: string)
    ensures Render(atoms, deleted, ids + [a])
         == Render(atoms, deleted, ids) + if a in atoms && a !in deleted then atoms[a].text else ""
  {
    assert (ids + [a])[..|ids|] == ids;
  }

  lemma AlreadyEntered(atoms: Atoms, deleted: set<string>, w: Walked, a: string, before: set<string>, root: string)
    requires VisitPre(atoms, deleted, w, a, before, root)
    ensures a in atoms
    ensures a in w.visited ==> VisitPost(atoms, deleted, w, a, before, root, w, None)
    ensures a in w.visiting ==>
      var w' := w.(diagnostics := w.diagnostics + {Cycle(a)});
      Inv(atoms, deleted, w') && VisitPost(atoms, deleted, w, a, before, root, w', None)
  {
    assert a in w.visited ==> w == w.(diagnostics := w.diagnostics + {});
  }

  lemma EnterKeepsInv(atoms: Atoms, deleted: set<string>, w: Walked, a: string, w1: Walked)
    requires Inv(atoms, deleted, w) && a in atoms && a !in w.Entered()
    requires w1 == w.(visiting := w.visiting + {a}, emitted := w.emitted + [a],
                      output := w.output + if a !in deleted then atoms[a].text else "")
    ensures Inv(atoms, deleted, w1)
  {
    RenderAppend(atoms, deleted, w.emitted, a);
    assert a !in w.emitted by { assert a !in Elements(w.emitted); }
  }

  lemma EnterKeepsContext(atoms: Atoms, deleted: set<string>, w: Walked, a: string, before: set<string>, root: string, w1: Walked)
    requires VisitPre(atoms, deleted, w, a, before, root) && a !in w.Entered()
    requires w1.visiting == w.visiting + {a} && w1.visited == w.visited
    ensures Context(atoms, w1, before, root)
    ensures forall y | y in w.Entered() && y !in before && y != root :: Follows(atoms, y, w.Entered())
  {
    hide Inv;
  }

  lemma Enter(atoms: Atoms, deleted: set<string>, w: Walked, a: string, before: set<string>, root: string, w1: Walked)
    requires VisitPre(atoms, deleted, w, a, before, root) && a !in w.Entered()
    requires w1 == w.(visiting := w.visiting + {a}, emitted := w.emitted + [a],
                      output := w.output + if a !in deleted then atoms[a].text else "")
    ensures Descending(atoms, deleted, w, a, before, root, w1, [], [])
  {
    EnterKeepsInv(atoms, deleted, w, a, w1);
    EnterKeepsContext(atoms, deleted, w, a, before, root, w1);
    hide Context;
    hide Inv;
    forall y | ChildOf(atoms, y, a) && y !in before && y != root ensures y !in w1.Entered() {
      assert y in w.Entered() ==> Follows(atoms, y, w.Entered());
    }
  }

  lemma NextPre(atoms: Atoms, deleted: set<string>, w0: Walked, a: string, before: set<string>, root: string,
                w: Walked, done: seq<string>, trees: seq<Tree>, y: string)
    requires Descending(atoms, deleted, w0, a, before, root, w, done, trees) && ChildOf(atoms, y, a) && y !in done
    ensures VisitPre(atoms, deleted, w, y, before, root)
    ensures Inv(atoms, deleted, w) && w0.visited <= w.visited && w.visiting == w0.visiting + {a}
  {
  }

  /** A child that is not fresh: already blocked when the top-level visit began. */
  lemma BlockedFacts(atoms: Atoms, deleted: set<string>, w: Walked, a: string, before: set<string>, root: string,
                     y: string, w': Walked)
    requires Inv(atoms, deleted, w) && Context(atoms, w, before, root) && a in w.visiting && y in w.Entered()
    requires y in before || y == root
    requires VisitPost(atoms, deleted, w, y, before, root, w', None)
    ensures w' == w.(diagnostics := w.diagnostics + if y == root then {Cycle(root)} else {})
    ensures Inv(atoms, deleted, w') && Context(atoms, w', before, root)
  {
  }

  lemma BlockedIsEntered(atoms: Atoms, deleted: set<string>, w: Walked, before: set<string>, root: string, y: string, w': Walked)
    requires VisitPost(atoms, deleted, w, y, before, root, w', None)
    ensures y in w.Entered()
  {
  }

  lemma TriedBlocked(atoms: Atoms, deleted: set<string>, w0: Walked, a: string, before: set<string>, root: string,
                     w: Walked, done: seq<string>, trees: seq<Tree>, y: string, w': Walked)
    requires Descending(atoms, deleted, w0, a, before, root, w, done, trees) && ChildOf(atoms, y, a) && y !in done
    requires VisitPost(atoms, deleted, w, y, before, root, w', None)
    ensures Descending(atoms, deleted, w0, a, before, root, w', done + [y], trees)
  {
    hide Inv, Context, Grown, Preorder, PreorderAll, Unblocked, VisitPost, Follows, Elements;
    BlockedIsEntered(atoms, deleted, w, before, root, y, w');
    BlockedFacts(atoms, deleted, w, a, before, root, y, w');
    UnblockedAppend(done, y, before + {root});
  }

  /** A tree entered later shares nothing with what was entered before. */
  lemma NewTreeApart(atoms: Atoms, deleted: set<string>, w: Walked, w': Walked, ids: seq<string>, x: string)
    requires Inv(atoms, deleted, w) && Inv(atoms, deleted, w') && w'.emitted == w.emitted + ids
    requires x in w.Entered()
    ensures x !in ids
  {
    assert x in Elements(w.emitted);
    var i :| 0 <= i < |w.emitted| && w.emitted[i] == x;
    forall j | 0 <= j < |ids| ensures ids[j] != x {
      assert w'.emitted[i] == x && w'.emitted[|w.emitted| + j] == ids[j];
    }
  }

  /** The untried children of `a` are not below its child `y`. */
  lemma SiblingsStayFresh(atoms: Atoms, deleted: set<string>, w: Walked, a: string, before: set<string>, root: string,
                          y: string, w': Walked, tree: Tree, others: iset<string>)
    requires Inv(atoms, deleted, w) && a in w.visiting
    requires VisitPost(atoms, deleted, w, y, before, root, w', Some(tree))
    requires forall z | z in others :: ChildOf(atoms, z, a) && z !in w.Entered() && z != y
    ensures forall z | z in others :: z !in w'.Entered()
  {
    forall z | z in others ensures z !in w'.Entered() {
      if z in Preorder(tree) {
        TreeLinked(atoms, before + {root}, tree, z);
        NewTreeApart(atoms, deleted, w, w', Preorder(tree), a);
      }
    }
  }

  lemma FreshFacts(atoms: Atoms, deleted: set<string>, w: Walked, y: string, before: set<string>, root: string,
                   w': Walked, tree: Tree)
    requires Context(atoms, w, before, root) && w.visiting != {} && VisitPost(atoms, deleted, w, y, before, root, w', Some(tree))
    ensures tree.id == y && y in Preorder(tree) && Grown(atoms, before + {root}, tree)
    ensures y !in before && y != root && w'.visiting == w.visiting
    ensures w'.emitted == w.emitted + Preorder(tree) && w'.visited == w.visited + Elements(Preorder(tree))
    ensures w'.diagnostics == w.diagnostics + Reported(atoms, root, Preorder(tree))
    ensures Inv(atoms, deleted, w') && Context(atoms, w', before, root)
  {
  }

  lemma TriedFresh(atoms: Atoms, deleted: set<string>, w0: Walked, a: string, before: set<string>, root: string,
                   w: Walked, done: seq<string>, trees: seq<Tree>, y: string, w': Walked, tree: Tree)
    requires Descending(atoms, deleted, w0, a, before, root, w, done, trees)
    requires ChildOf(atoms, y, a) && y !in done
    requires VisitPost(atoms, deleted, w, y, before, root, w', Some(tree))
    ensures Descending(atoms, deleted, w0, a, before, root, w', done + [y], trees + [tree])
  {
    hide Inv, Grown, Context, Follows, Reported, PreorderAll, Preorder, Unblocked, VisitPost, Distinct;
    FreshFacts(atoms, deleted, w, y, before, root, w', tree);
    var others := iset z | ChildOf(atoms, z, a) && z !in done + [y] && z !in before && z != root;
    SiblingsStayFresh(atoms, deleted, w, a, before, root, y, w', tree, others);
    TriedFreshBooks(atoms, w0, a, before, root, w, done, trees, w', tree);
  }

  lemma ElementsConcat(a: seq<string>, b: seq<string>)
    ensures Elements(a + b) == Elements(a) + Elements(b)
  {
  }

  lemma FollowsUnion(atoms: Atoms, y: string, A: set<string>, B: set<string>)
    ensures Follows(atoms, y, A + B) <==> Follows(atoms, y, A) || Follows(atoms, y, B)
  {
  }

  /** A newly entered tree reports a cycle when it holds the root's parent. */
  lemma TriedFreshReports(atoms: Atoms, d0: set<Diagnostic>, root: string, done: seq<string>, y: string,
                          A: set<string>, B: set<string>, d: set<Diagnostic>, d': set<Diagnostic>)
    requires d == d0 + if root in done || Follows(atoms, root, A) then {Cycle(root)} else {}
    requires d' == d + if Follows(atoms, root, B) then {Cycle(root)} else {}
    requires y != root
    ensures d' == d0 + if root in done + [y] || Follows(atoms, root, A + B) then {Cycle(root)} else {}
  {
    FollowsUnion(atoms, root, A, B);
    hide Follows;
    assert root in done + [y] <==> root in done;
  }

  lemma TriedFreshIds(trees: seq<Tree>, tree: Tree, done: seq<string>, blocked: set<string>)
    requires Ids(trees) == Unblocked(done, blocked) && tree.id !in blocked
    ensures Ids(trees + [tree]) == Unblocked(done + [tree.id], blocked)
  {
    UnblockedAppend(done, tree.id, blocked);
    assert Ids(trees + [tree]) == Ids(trees) + [tree.id];
  }

  /** The bookkeeping of a newly entered tree. */
  lemma TriedFreshBooks(atoms: Atoms, w0: Walked, a: string, before: set<string>, root: string,
                        w: Walked, done: seq<string>, trees: seq<Tree>, w': Walked, tree: Tree)
    requires w.emitted == w0.emitted + [a] + PreorderAll(trees) && w'.emitted == w.emitted + Preorder(tree)
    requires w.visited == w0.visited + Elements(PreorderAll(trees)) && w'.visited == w.visited + Elements(Preorder(tree))
    requires Ids(trees) == Unblocked(done, before + {root}) && tree.id !in before && tree.id != root
    requires w.diagnostics == w0.diagnostics
         + if root in done || Follows(atoms, root, Elements(PreorderAll(trees))) then {Cycle(root)} else {}
    requires w'.diagnostics == w.diagnostics + Reported(atoms, root, Preorder(tree))
    ensures w'.emitted == w0.emitted + [a] + PreorderAll(trees + [tree])
    ensures w'.visited == w0.visited + Elements(PreorderAll(trees + [tree]))
    ensures Ids(trees + [tree]) == Unblocked(done + [tree.id], before + {root})
    ensures w'.diagnostics == w0.diagnostics
         + if root in done + [tree.id] || Follows(atoms, root, Elements(PreorderAll(trees + [tree]))) then {Cycle(root)} else {}
  {
    hide PreorderAll, Preorder, Unblocked, Follows, Elements, Ids;
    PreorderAllAppend(trees, tree);
    TriedFreshIds(trees, tree, done, before + {root});
    ElementsConcat(PreorderAll(trees), Preorder(tree));
    TriedFreshReports(atoms, w0.diagnostics, root, done, tree.id, Elements(PreorderAll(trees)), Elements(Preorder(tree)),
                      w.diagnostics, w'.diagnostics);
  }

  lemma LeaveKeepsInv(atoms: Atoms, deleted: set<string>, w: Walked, a: string, before: set<string>, root: string, w2: Walked)
    requires Inv(atoms, deleted, w) && Context(atoms, w, before, root) && a in w.visiting
    requires forall y | ChildOf(atoms, y, a) :: y in w.Entered()
    requires w2 == w.(visiting := w.visiting - {a}, visited := w.visited + {a})
    requires w2.visiting != {} ==> root in w2.visiting
    ensures Inv(atoms, deleted, w2) && Context(atoms, w2, before, root)
  {
    assert w2.Entered() == w.Entered();
  }

  lemma LeaveBooks(atoms: Atoms, w0: Walked, a: string, root: string, w: Walked, trees: seq<Tree>, w2: Walked)
    requires w.emitted == w0.emitted + [a] + PreorderAll(trees) && w.visited == w0.visited + Elements(PreorderAll(trees))
    requires w.diagnostics == w0.diagnostics
         + if root in Kids(atoms, Some(a)) || Follows(atoms, root, Elements(PreorderAll(trees))) then {Cycle(root)} else {}
    requires w2 == w.(visiting := w.visiting - {a}, visited := w.visited + {a})
    ensures w2.emitted == w0.emitted + Preorder(Node(a, trees))
    ensures w2.visited == w0.visited + Elements(Preorder(Node(a, trees)))
    ensures w2.diagnostics == w0.diagnostics + Reported(atoms, root, Preorder(Node(a, trees)))
  {
    assert Elements(Preorder(Node(a, trees))) == {a} + Elements(PreorderAll(trees));
    assert root in Kids(atoms, Some(a)) <==> Follows(atoms, root, {a});
  }

  lemma Leave(atoms: Atoms, deleted: set<string>, w0: Walked, a: string, before: set<string>, root: string,
              w: Walked, done: seq<string>, trees: seq<Tree>, w2: Walked)
    requires VisitPre(atoms, deleted, w0, a, before, root) && a !in w0.Entered()
    requires Descending(atoms, deleted, w0, a, before, root, w, done, trees) && done == Kids(atoms, Some(a))
    requires w2 == w.(visiting := w.visiting - {a}, visited := w.visited + {a})
    ensures VisitPost(atoms, deleted, w0, a, before, root, w2, Some(Node(a, trees)))
    ensures Inv(atoms, deleted, w2)
  {
    assert w2.visiting == w0.visiting;
    LeaveKeepsInv(atoms, deleted, w, a, before, root, w2);
    LeaveBooks(atoms, w0, a, root, w, trees, w2);
    assert Grown(atoms, before + {root}, Node(a, trees));
    hide Inv, Context, Grown, Follows, Reported, Preorder, PreorderAll;
  }

  lemma DistinctPrefix(ids: seq<string>, i: nat)
    requires Distinct(ids) && i < |ids|
    ensures ids[i] !in ids[..i] && ids[..i + 1] == ids[..i] + [ids[i]]
  {
  }

  class Walk {
    const atoms: Atoms
    const children: map<Option<string>, seq<string>>
    const deleted: set<string>
    var visiting: set<string>
    var visited: set<string>
    var diagnostics: set<Diagnostic>
    var output: string
    /** The atoms entered so far, in order. */
    ghost var emitted: seq<string>

    ghost function Value(): Walked
      reads this
    {
      Walked(visiting, visited, diagnostics, output, emitted)
    }

    ghost predicate Valid()
      reads this
    {
      IsChildTable(atoms, children) && Inv(atoms, deleted, Value())
    }

    constructor (atoms: Atoms, children: map<Option<string>, seq<string>>, deleted: set<string>, diagnostics: set<Diagnostic>)
      requires IsChildTable(atoms, children)
      ensures Valid() && Value() == Walked({}, {}, diagnostics, "", [])
      ensures this.atoms == atoms && this.deleted == deleted && this.children == children
    {
      this.atoms, this.children, this.deleted, this.diagnostics := atoms, children, deleted, diagnostics;
      visiting, visited, output, emitted := {}, {}, "", [];
    }

    method Visit(a: string, ghost before: set<string>, ghost root: string) returns (ghost t: Option<Tree>)
      requires Valid() && VisitPre(atoms, deleted, Value(), a, before, root)
      modifies `visiting, `visited, `diagnostics, `output, `emitted
      ensures Valid() && VisitPost(atoms, deleted, old(Value()), a, before, root, Value(), t)
      decreases atoms.Keys - visited - visiting
    {
      hide VisitPre, VisitPost, Descending, Inv, Context, Grown;
      ghost var w0 := Value();
      AlreadyEntered(atoms, deleted, w0, a, before, root);
      if a in visiting {
        diagnostics := diagnostics + {Cycle(a)};
        return None;
      }
      if a in visited { return None; }
      visiting := visiting + {a};
      if a !in deleted { output := output + atoms[a].text; }
      emitted := emitted + [a];
      Enter(atoms, deleted, w0, a, before, root, Value());
      var descendants := if Some(a) in children then children[Some(a)] else [];
      ghost var trees := VisitChildren(descendants, a, before, root, w0);
      ghost var w := Value();
      visiting := visiting - {a};
      visited := visited + {a};
      t := Some(Node(a, trees));
      Leave(atoms, deleted, w0, a, before, root, w, Kids(atoms, Some(a)), trees, Value());
    }

    /** The loop over the children of `a`, which was entered in state `w0`. */
    method VisitChildren(descendants: seq<string>, ghost a: string, ghost before: set<string>, ghost root: string, ghost w0: Walked)
      returns (ghost trees: seq<Tree>)
      requires IsChildTable(atoms, children) && a in atoms && a !in w0.visited && a !in w0.visiting
      requires Distinct(descendants) && forall y | y in descendants :: ChildOf(atoms, y, a)
      requires Descending(atoms, deleted, w0, a, before, root, Value(), [], [])
      modifies `visiting, `visited, `diagnostics, `output, `emitted
      ensures Descending(atoms, deleted, w0, a, before, root, Value(), descendants, trees)
      decreases atoms.Keys - w0.visited - w0.visiting, 0
    {
      hide *;
      trees := [];
      for i := 0 to |descendants|
        invariant Descending(atoms, deleted, w0, a, before, root, Value(), descendants[..i], trees)
      {
        ghost var y, done, w := descendants[i], descendants[..i], Value();
        DistinctPrefix(descendants, i);
        NextPre(atoms, deleted, w0, a, before, root, w, done, trees, y);
        ValueParts();
        ghost var k := Visit(descendants[i], before, root);
        if k.Some? {
          TriedFresh(atoms, deleted, w0, a, before, root, w, done, trees, y, Value(), k.value);
          trees := trees + [k.value];
        } else {
          TriedBlocked(atoms, deleted, w0, a, before, root, w, done, trees, y, Value());
        }
      }
      assert descendants[..|descendants|] == descendants;
    }

    lemma ValueParts()
      ensures Value() == Walked(visiting, visited, diagnostics, output, emitted)
      ensures Valid() <==> IsChildTable(atoms, children) && Inv(atoms, deleted, Value())
    {
    }
  }
}
