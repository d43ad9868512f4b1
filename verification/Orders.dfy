/** Strict total orders and the ascending enumerations that iterating a
    `BTreeMap` or a `BTreeSet` gives. */
module Orders {

  ghost predicate StrictTotal<T(!new)>(less: (T, T) -> bool) {
    && (forall x: T :: !less(x, x))
    && (forall x: T, y: T, z: T :: less(x, y) && less(y, z) ==> less(x, z))
    && (forall x: T, y: T :: less(x, y) || x == y || less(y, x))
  }

  /** Lexicographic comparison, a proper prefix being smaller. */
  predicate LexLess<T(==)>(less: (T, T) -> bool, a: seq<T>, b: seq<T>) {
    if b == [] then false
    else if a == [] then true
    else less(a[0], b[0]) || (a[0] == b[0] && LexLess(less, a[1..], b[1..]))
  }

  lemma {:induction false} LexIrreflexive<T(!new)>(less: (T, T) -> bool, a: seq<T>)
    requires StrictTotal(less)
    ensures !LexLess(less, a, a)
  {
    if a != [] { LexIrreflexive(less, a[1..]); }
  }

  lemma {:induction false} LexTransitive<T(!new)>(less: (T, T) -> bool, a: seq<T>, b: seq<T>, c: seq<T>)
    requires StrictTotal(less) && LexLess(less, a, b) && LexLess(less, b, c)
    ensures LexLess(less, a, c)
  {
    if a != [] && a[0] == b[0] == c[0] { LexTransitive(less, a[1..], b[1..], c[1..]); }
  }

  lemma {:induction false} LexTrichotomy<T(!new)>(less: (T, T) -> bool, a: seq<T>, b: seq<T>)
    requires StrictTotal(less)
    ensures LexLess(less, a, b) || a == b || LexLess(less, b, a)
  {
    if a != [] && b != [] && a[0] == b[0] {
      LexTrichotomy(less, a[1..], b[1..]);
      assert a == [a[0]] + a[1..] && b == [b[0]] + b[1..];
    }
  }

  predicate CharLess(a: char, b: char) { a < b }

  /** Rust's `str` order on code points. */
  predicate StringLess(a: string, b: string) { LexLess(CharLess, a, b) }

  lemma StringOrder()
    ensures StrictTotal(StringLess)
  {
    assert StrictTotal(CharLess);
    forall x: string ensures !StringLess(x, x) { LexIrreflexive(CharLess, x); }
    forall x: string, y: string, z: string | StringLess(x, y) && StringLess(y, z)
      ensures StringLess(x, z) { LexTransitive(CharLess, x, y, z); }
    forall x: string, y: string ensures StringLess(x, y) || x == y || StringLess(y, x) {
      LexTrichotomy(CharLess, x, y);
    }
  }

  ghost predicate Ascending<T(!new)>(less: (T, T) -> bool, s: seq<T>) {
    forall i, j | 0 <= i < j < |s| :: less(s[i], s[j])
  }

  lemma {:induction false} LeastExists<T(!new)>(less: (T, T) -> bool, keys: set<T>) returns (m: T)
    requires StrictTotal(less) && keys != {}
    ensures m in keys && forall k | k in keys :: k == m || less(m, k)
    decreases keys
  {
    m :| m in keys;
    if keys != {m} {
      var n := LeastExists(less, keys - {m});
      if less(n, m) { m := n; }
    }
  }

  function Least<T(!new, ==)>(less: (T, T) -> bool, keys: set<T>): (m: T)
    requires StrictTotal(less) && keys != {}
    ensures m in keys && forall k | k in keys :: k == m || less(m, k)
  {
    assert exists m :: m in keys && forall k | k in keys :: k == m || less(m, k) by {
      var m := LeastExists(less, keys);
    }
    var m :| m in keys && forall k | k in keys :: k == m || less(m, k);
    m
  }

  /** The keys in ascending order. */
  function Sorted<T(!new, ==)>(less: (T, T) -> bool, keys: set<T>): (s: seq<T>)
    requires StrictTotal(less)
    ensures Ascending(less, s) && |s| == |keys|
    ensures forall k :: k in s <==> k in keys
    decreases keys
  {
    if keys == {} then []
    else var m := Least(less, keys); [m] + Sorted(less, keys - {m})
  }

  /** An ascending sequence is determined by its elements. */
  lemma {:induction false} AscendingUnique<T(!new)>(less: (T, T) -> bool, s: seq<T>, t: seq<T>)
    requires StrictTotal(less) && Ascending(less, s) && Ascending(less, t)
    requires forall k :: k in s <==> k in t
    ensures s == t
  {
    assert s != [] ==> s[0] in t;
    assert t != [] ==> t[0] in s;
    if s != [] {
      assert s[0] == t[0];
      assert s == [s[0]] + s[1..] && t == [t[0]] + t[1..];
      assert s[0] !in s[1..] by { assert forall j | 0 <= j < |s| - 1 :: less(s[0], s[1..][j]); }
      assert t[0] !in t[1..] by { assert forall j | 0 <= j < |t| - 1 :: less(t[0], t[1..][j]); }
      forall k ensures k in s[1..] <==> k in t[1..] {
        assert k in s <==> k == s[0] || k in s[1..];
        assert k in t <==> k == t[0] || k in t[1..];
      }
      AscendingUnique(less, s[1..], t[1..]);
    }
  }

  lemma StringsAscendingUnique(s: seq<string>, t: seq<string>)
    requires Ascending(StringLess, s) && Ascending(StringLess, t)
    requires forall k :: k in s <==> k in t
    ensures s == t
  {
    StringOrder();
    AscendingUnique(StringLess, s, t);
  }

  /* ---------- First differences ---------- */

  /** The first difference has the smaller character on the left, or the left
      text ends there. */
  ghost predicate StringPrecedes(a: string, b: string) {
    exists i :: 0 <= i <= |a| && i < |b| && a[..i] == b[..i] && (i == |a| || a[i] < b[i])
  }

  ghost predicate DiffersAt<T(!new)>(less: (T, T) -> bool, a: seq<T>, b: seq<T>, i: int) {
    0 <= i <= |a| && i < |b| && a[..i] == b[..i] && (i == |a| || less(a[i], b[i]))
  }

  lemma {:induction false} LexLessAt<T(!new)>(less: (T, T) -> bool, a: seq<T>, b: seq<T>)
    requires StrictTotal(less)
    ensures LexLess(less, a, b) <==> exists i :: DiffersAt(less, a, b, i)
  {
    if a == [] {
      if b != [] { assert DiffersAt(less, a, b, 0); }
    } else if b != [] {
      LexLessAt(less, a[1..], b[1..]);
      if less(a[0], b[0]) {
        assert DiffersAt(less, a, b, 0);
      } else if a[0] == b[0] {
        if i :| DiffersAt(less, a[1..], b[1..], i) { DiffersLater(less, a, b, i); }
        if i :| DiffersAt(less, a, b, i) { DiffersSooner(less, a, b, i); }
      } else {
        forall i ensures !DiffersAt(less, a, b, i) { HeadsAgree(a, b, i); }
      }
    }
  }

  lemma HeadsAgree<T>(a: seq<T>, b: seq<T>, i: int)
    ensures 0 < i <= |a| && i < |b| && a[..i] == b[..i] ==> a[0] == b[0]
  {
    if 0 < i <= |a| && i < |b| && a[..i] == b[..i] { assert a[0] == a[..i][0] && b[0] == b[..i][0]; }
  }

  lemma DiffersLater<T(!new)>(less: (T, T) -> bool, a: seq<T>, b: seq<T>, i: int)
    requires a != [] && b != [] && a[0] == b[0] && DiffersAt(less, a[1..], b[1..], i)
    ensures DiffersAt(less, a, b, i + 1)
  {
    assert a[..i + 1] == [a[0]] + a[1..][..i] && b[..i + 1] == [b[0]] + b[1..][..i];
  }

  lemma DiffersSooner<T(!new)>(less: (T, T) -> bool, a: seq<T>, b: seq<T>, i: int)
    requires StrictTotal(less) && a != [] && b != [] && a[0] == b[0] && DiffersAt(less, a, b, i)
    ensures DiffersAt(less, a[1..], b[1..], i - 1)
  {
    assert a[1..][..i - 1] == a[..i][1..] && b[1..][..i - 1] == b[..i][1..];
  }

  lemma StringLessExactly(a: string, b: string)
    ensures StringLess(a, b) <==> StringPrecedes(a, b)
  {
    assert StrictTotal(CharLess);
    LexLessAt(CharLess, a, b);
    hide LexLess;
    if i :| DiffersAt(CharLess, a, b, i) { }
    if StringPrecedes(a, b) {
      var i :| 0 <= i <= |a| && i < |b| && a[..i] == b[..i] && (i == |a| || a[i] < b[i]);
      assert DiffersAt(CharLess, a, b, i);
    }
  }
}
