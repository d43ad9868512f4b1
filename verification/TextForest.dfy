/** Atoms, the parent graph they span, and preorder trees over it. */
module TextForest {
  import opened Wrappers
  import opened Orders
  import opened CrdtClock

  datatype Atom = Atom(after: Option<string>, text: string, key: Key)
  type Atoms = map<string, Atom>

  /** An atom that is placed: it starts the text or follows a known atom. */
  predicate Attached(atoms: Atoms, a: string) {
    a in atoms && (atoms[a].after.Some? ==> atoms[a].after.value in atoms)
  }

  ghost predicate ChildOf(atoms: Atoms, a: string, parent: string) {
    a in atoms && atoms[a].after == Some(parent)
  }

  /** The atoms that follow `after`, in ascending order. */
  function Kids(atoms: Atoms, after: Option<string>): (ks: seq<string>)
    ensures Ascending(StringLess, ks)
    ensures forall k :: k in ks <==> k in atoms && atoms[k].after == after
    ensures forall i, j | 0 <= i < j < |ks| :: ks[i] != ks[j]
  {
    StringOrder();
    Sorted(StringLess, set k | k in atoms && atoms[k].after == after)
  }

  /* ---------- Ancestors ---------- */

  /** The `n`-th ancestor. */
  ghost function Up(atoms: Atoms, a: string, n: nat): Option<string>
    decreases n
  {
    if n == 0 then Some(a)
    else if a in atoms && atoms[a].after.Some? && atoms[a].after.value in atoms then Up(atoms, atoms[a].after.value, n - 1)
    else None
  }

  ghost predicate Descends(atoms: Atoms, a: string, ancestor: string) {
    exists n: nat :: Up(atoms, a, n) == Some(ancestor)
  }

  ghost predicate OnCycle(atoms: Atoms, a: string) {
    exists n: nat :: n > 0 && Up(atoms, a, n) == Some(a)
  }

  /** `a` is the smallest atom of a parent cycle. */
  ghost predicate LeastOnCycle(atoms: Atoms, a: string) {
    OnCycle(atoms, a) && forall b | Descends(atoms, a, b) :: a == b || StringLess(a, b)
  }

  lemma {:induction false} UpCompose(atoms: Atoms, a: string, m: nat, n: nat)
    requires Up(atoms, a, m).Some?
    ensures Up(atoms, a, m + n) == Up(atoms, Up(atoms, a, m).value, n)
    decreases m
  {
    if m > 0 { UpCompose(atoms, atoms[a].after.value, m - 1, n); }
  }

  /** Every ancestor of an atom on a cycle lies on it and leads back. */
  lemma {:induction false} CycleReturns(atoms: Atoms, a: string, n: nat, b: string) returns (m: nat)
    requires OnCycle(atoms, a) && Up(atoms, a, n) == Some(b)
    ensures Up(atoms, b, m) == Some(a) && OnCycle(atoms, b)
    decreases n
  {
    if n == 0 {
      m := 0;
    } else {
      UpPrefix(atoms, a, n - 1, n);
      var c := Up(atoms, a, n - 1).value;
      UpCompose(atoms, a, n - 1, 1);
      var k := CycleReturns(atoms, a, n - 1, c);
      if k == 0 {
        var p: nat :| p > 0 && Up(atoms, a, p) == Some(a);
        k := p;
      }
      UpCompose(atoms, c, 1, k - 1);
      m := k - 1;
      UpCompose(atoms, b, m, n);
      assert Up(atoms, b, m + n) == Some(b);
    }
  }

  lemma {:induction false} UpPrefix(atoms: Atoms, a: string, m: nat, n: nat)
    requires m <= n && Up(atoms, a, n).Some?
    ensures Up(atoms, a, m).Some?
    decreases m
  {
    if m > 0 { UpPrefix(atoms, atoms[a].after.value, m - 1, n - 1); }
  }

  ghost predicate ClosedDownward(atoms: Atoms, V: set<string>) {
    forall a | a in atoms && atoms[a].after.Some? && atoms[a].after.value in V :: a in V
  }

  lemma {:induction false} DescendantsInClosed(atoms: Atoms, V: set<string>, a: string, n: nat, b: string)
    requires ClosedDownward(atoms, V) && Up(atoms, a, n) == Some(b) && b in V
    ensures a in V
    decreases n
  {
    if n > 0 { DescendantsInClosed(atoms, V, atoms[a].after.value, n - 1, b); }
  }

  /* ---------- Trees ---------- */

  datatype Tree = Node(id: string, kids: seq<Tree>)

  ghost function Preorder(t: Tree): seq<string> { [t.id] + PreorderAll(t.kids) }

  ghost function PreorderAll(ts: seq<Tree>): seq<string> {
    if ts == [] then [] else Preorder(ts[0]) + PreorderAll(ts[1..])
  }

  ghost function Ids(ts: seq<Tree>): seq<string> { seq(|ts|, i requires 0 <= i < |ts| => ts[i].id) }

  function Unblocked(ids: seq<string>, blocked: set<string>): seq<string> {
    if ids == [] then []
    else Unblocked(ids[..|ids| - 1], blocked) + if ids[|ids| - 1] in blocked then [] else [ids[|ids| - 1]]
  }

  /** Every node of `t` has as kids all its children outside `blocked`, in
      ascending order. */
  ghost predicate Grown(atoms: Atoms, blocked: set<string>, t: Tree)
    decreases t
  {
    t.id in atoms && Ids(t.kids) == Unblocked(Kids(atoms, Some(t.id)), blocked)
    && forall k | k in t.kids :: Grown(atoms, blocked, k)
  }

  lemma {:induction false} PreorderAllAppend(ts: seq<Tree>, t: Tree)
    ensures PreorderAll(ts + [t]) == PreorderAll(ts) + Preorder(t)
  {
    if ts == [] {
      assert [t][1..] == [];
    } else {
      assert (ts + [t])[0] == ts[0] && (ts + [t])[1..] == ts[1..] + [t];
      PreorderAllAppend(ts[1..], t);
      assert Preorder(ts[0]) + (PreorderAll(ts[1..]) + Preorder(t)) == PreorderAll(ts) + Preorder(t);
    }
  }

  lemma {:induction false} PreorderAllMember(ts: seq<Tree>, y: string) returns (t: Tree)
    requires y in PreorderAll(ts)
    ensures t in ts && y in Preorder(t)
  {
    if y in Preorder(ts[0]) {
      t := ts[0];
    } else {
      t := PreorderAllMember(ts[1..], y);
    }
  }

  lemma {:induction false} PreorderOfKid(ts: seq<Tree>, t: Tree, y: string)
    requires t in ts && y in Preorder(t)
    ensures y in PreorderAll(ts)
  {
    if t != ts[0] { PreorderOfKid(ts[1..], t, y); }
  }

  lemma {:induction false} UnblockedMember(ids: seq<string>, blocked: set<string>, y: string)
    ensures y in Unblocked(ids, blocked) <==> y in ids && y !in blocked
  {
    if ids != [] {
      UnblockedMember(ids[..|ids| - 1], blocked, y);
      assert ids == ids[..|ids| - 1] + [ids[|ids| - 1]];
    }
  }

  lemma UnblockedAppend(ids: seq<string>, y: string, blocked: set<string>)
    ensures Unblocked(ids + [y], blocked) == Unblocked(ids, blocked) + if y in blocked then [] else [y]
  {
    assert (ids + [y])[..|ids|] == ids;
  }

  lemma {:induction false} UnblockedAll(ids: seq<string>, blocked: set<string>)
    requires forall y | y in ids :: y !in blocked
    ensures Unblocked(ids, blocked) == ids
  {
    if ids != [] { UnblockedAll(ids[..|ids| - 1], blocked); }
  }

  lemma KidIsChild(atoms: Atoms, blocked: set<string>, t: Tree, k: Tree)
    requires Grown(atoms, blocked, t) && k in t.kids
    ensures ChildOf(atoms, k.id, t.id) && k.id !in blocked
  {
    var i :| 0 <= i < |t.kids| && t.kids[i] == k;
    assert Ids(t.kids)[i] == k.id;
    UnblockedMember(Kids(atoms, Some(t.id)), blocked, k.id);
  }

  /** Below the root of a grown tree every node has its parent in the tree, and
      all nodes descend from the root. */
  lemma {:induction false} TreeLinked(atoms: Atoms, blocked: set<string>, t: Tree, y: string)
    requires Grown(atoms, blocked, t) && y in Preorder(t)
    ensures y in atoms && Descends(atoms, y, t.id)
    ensures y == t.id || (y !in blocked && atoms[y].after.Some? && atoms[y].after.value in Preorder(t))
    decreases t
  {
    if y == t.id {
      assert Up(atoms, y, 0) == Some(t.id);
    } else {
      var k := PreorderAllMember(t.kids, y);
      KidIsChild(atoms, blocked, t, k);
      TreeLinked(atoms, blocked, k, y);
      var n: nat :| Up(atoms, y, n) == Some(k.id);
      UpCompose(atoms, y, n, 1);
      assert Up(atoms, k.id, 1) == Some(t.id);
      assert Up(atoms, y, n + 1) == Some(t.id);
      if y != k.id { PreorderOfKid(t.kids, k, atoms[y].after.value); }
    }
  }

  ghost predicate ParentEarlier(atoms: Atoms, ids: seq<string>, i: nat)
    requires i < |ids|
  {
    ids[i] in atoms && atoms[ids[i]].after.Some? && exists j | 0 <= j < i :: ids[j] == atoms[ids[i]].after.value
  }

  lemma EarlierShifts(atoms: Atoms, head: seq<string>, ids: seq<string>, tail: seq<string>, i: nat)
    requires i < |ids| && ParentEarlier(atoms, ids, i)
    ensures ParentEarlier(atoms, head + ids + tail, |head| + i)
  {
    var j :| 0 <= j < i && ids[j] == atoms[ids[i]].after.value;
    assert (head + ids + tail)[|head| + j] == ids[j];
  }

  /** In the preorder of a grown tree every atom but the first comes after its
      parent. */
  lemma {:induction false} ParentFirst(atoms: Atoms, blocked: set<string>, t: Tree, i: nat)
    requires Grown(atoms, blocked, t) && 0 < i < |Preorder(t)|
    ensures ParentEarlier(atoms, Preorder(t), i)
    decreases t, 0
  {
    var ids := PreorderAll(t.kids);
    assert Preorder(t) == [t.id] + ids + [];
    ParentFirstAll(atoms, blocked, t.kids, i - 1);
    if ParentEarlier(atoms, ids, i - 1) {
      EarlierShifts(atoms, [t.id], ids, [], i - 1);
    } else {
      var k :| k in t.kids && k.id == ids[i - 1];
      KidIsChild(atoms, blocked, t, k);
      assert Preorder(t)[0] == t.id && Preorder(t)[i] == k.id;
    }
  }

  /** In a forest every atom is a root or comes after its parent. */
  lemma {:induction false} ParentFirstAll(atoms: Atoms, blocked: set<string>, ts: seq<Tree>, i: nat)
    requires (forall t | t in ts :: Grown(atoms, blocked, t)) && i < |PreorderAll(ts)|
    ensures ParentEarlier(atoms, PreorderAll(ts), i) || exists t | t in ts :: t.id == PreorderAll(ts)[i]
    decreases ts
  {
    var first, more := Preorder(ts[0]), PreorderAll(ts[1..]);
    hide *;
    FirstAndMore(ts);
    RootIsFirst(ts[0]);
    Around(first, more);
    if i == 0 {
      assert (first + more)[0] == ts[0].id;
    } else if i < |first| {
      ParentFirst(atoms, blocked, ts[0], i);
      EarlierShifts(atoms, [], first, more, i);
    } else {
      ParentFirstAll(atoms, blocked, ts[1..], i - |first|);
      assert (first + more)[i] == more[i - |first|];
      if ParentEarlier(atoms, more, i - |first|) { EarlierShifts(atoms, first, more, [], i - |first|); }
    }
  }

  lemma FirstAndMore(ts: seq<Tree>)
    requires ts != []
    ensures ts[0] in ts && PreorderAll(ts) == Preorder(ts[0]) + PreorderAll(ts[1..])
  {
    hide Preorder;
  }

  lemma RootIsFirst(t: Tree)
    ensures |Preorder(t)| > 0 && Preorder(t)[0] == t.id
  {
    hide PreorderAll;
  }

  lemma Around(a: seq<string>, b: seq<string>)
    ensures a + b == [] + a + b && a + b == a + b + []
  {
  }

  /* ---------- One least atom per cycle ---------- */

  lemma DescendsThrough(atoms: Atoms, a: string, b: string, c: string)
    requires Descends(atoms, a, b) && Descends(atoms, b, c)
    ensures Descends(atoms, a, c)
  {
    var m: nat :| Up(atoms, a, m) == Some(b);
    var n: nat :| Up(atoms, b, n) == Some(c);
    UpCompose(atoms, a, m, n);
    assert Up(atoms, a, m + n) == Some(c);
  }

  /** The ancestors of an atom on a cycle are atoms on the same cycle. */
  lemma AncestorsOnCycle(atoms: Atoms, a: string, b: string)
    requires OnCycle(atoms, a) && Descends(atoms, a, b)
    ensures b in atoms && OnCycle(atoms, b) && Descends(atoms, b, a)
  {
    var n: nat :| Up(atoms, a, n) == Some(b);
    var m := CycleReturns(atoms, a, n, b);
    assert Up(atoms, b, m) == Some(a);
  }

  /** Every cycle has exactly one least atom. */
  lemma OneLeastPerCycle(atoms: Atoms, a: string) returns (c: string)
    requires OnCycle(atoms, a)
    ensures Descends(atoms, a, c) && LeastOnCycle(atoms, c)
    ensures forall d | Descends(atoms, a, d) && LeastOnCycle(atoms, d) :: d == c
  {
    var cycle := set b | b in atoms && Descends(atoms, a, b);
    assert Up(atoms, a, 0) == Some(a);
    AncestorsOnCycle(atoms, a, a);
    assert a in cycle;
    StringOrder();
    c := Least(StringLess, cycle);
    AncestorsOnCycle(atoms, a, c);
    forall b | Descends(atoms, c, b) ensures c == b || StringLess(c, b) {
      DescendsThrough(atoms, a, c, b);
      AncestorsOnCycle(atoms, a, b);
      assert b in cycle;
    }
    forall d | Descends(atoms, a, d) && LeastOnCycle(atoms, d) ensures d == c {
      AncestorsOnCycle(atoms, a, d);
      DescendsThrough(atoms, c, a, d);
      DescendsThrough(atoms, d, a, c);
    }
  }
}
