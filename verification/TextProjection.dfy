/** The text projection: choosing atoms, tabling children and walking them. */
module TextProjection {
  import opened Wrappers
  import opened Orders
  import opened CrdtClock
  import opened TextForest
  import opened TextWalk

  /** A decoded bootstrap row and a decoded operation payload. */
  datatype Row = Row(atomId: string, after: Option<string>, text: string, deleted: bool) | BadRow
  datatype Payload = Insert(atomId: string, after: Option<string>, text: string) | Delete(atomId: string) | BadPayload
  datatype Event = Event(key: Key, payload: Payload)

  /* ---------- Choosing atoms ---------- */

  function GetOr(after: Option<string>): string { if after.Some? then after.value else "" }

  predicate CandidateLess(a: Atom, b: Atom) {
    StringLess(GetOr(a.after), GetOr(b.after))
    || (GetOr(a.after) == GetOr(b.after)
        && (StringLess(a.text, b.text)
            || (a.text == b.text && KeyLess(a.key, b.key))))
  }

  lemma CandidateTransitive(a: Atom, b: Atom, c: Atom)
    requires CandidateLess(a, b) && CandidateLess(b, c)
    ensures CandidateLess(a, c)
  {
    StringOrder();
  }

  lemma CandidateTotal(a: Atom, b: Atom)
    ensures CandidateLess(a, b) || CandidateLess(b, a) || (a.text == b.text && a.key == b.key)
    ensures !CandidateLess(a, a)
  {
    StringOrder();
  }

  /** The last readable row of an id. */
  ghost predicate IsLast(rows: seq<Row>, i: int, id: string) {
    && 0 <= i < |rows| && rows[i].Row? && rows[i].atomId == id
    && forall j | i < j < |rows| && rows[j].Row? :: rows[j].atomId != id
  }

  /** The atoms of a bootstrap: every id of a readable row, with what the last
      such row of that id says, under the empty identity; and no other id. */
  ghost predicate FromRows(rows: seq<Row>, atoms: Atoms) {
    && (forall i, id | IsLast(rows, i, id) ::
          id in atoms && atoms[id].after == rows[i].after && atoms[id].text == rows[i].text && atoms[id].key == Key("", 0))
    && forall id | id in atoms :: exists i :: IsLast(rows, i, id)
  }

  /** The rows determine the atoms. */
  lemma FromRowsUnique(rows: seq<Row>, a: Atoms, b: Atoms)
    requires FromRows(rows, a) && FromRows(rows, b)
    ensures a == b && forall id | id in a :: a[id].key == Key("", 0)
  {
    hide IsLast;
    forall id | id in a ensures id in b && a[id] == b[id] && a[id].key == Key("", 0) {
      var i :| IsLast(rows, i, id);
    }
    forall id | id in b ensures id in a {
      var i :| IsLast(rows, i, id);
    }
  }

  /** One more row is the last of its id and takes that place from no other. */
  lemma LastOfMore(rows: seq<Row>, row: Row, i: int, id: string)
    ensures IsLast(rows + [row], i, id) <==>
      if row.Row? && row.atomId == id then i == |rows| else IsLast(rows, i, id)
    ensures IsLast(rows, i, id) ==> 0 <= i < |rows| && rows[i].Row? && (rows + [row])[i] == rows[i]
  {
    var more := rows + [row];
    assert more[|rows|] == row && more[..|rows|] == rows;
    forall j | 0 <= j < |rows| ensures more[j] == rows[j] { }
  }

  lemma FromMoreRows(rows: seq<Row>, row: Row, atoms: Atoms, atoms': Atoms)
    requires FromRows(rows, atoms)
    requires atoms' == if row.Row? then atoms[row.atomId := Atom(row.after, row.text, Key("", 0))] else atoms
    ensures FromRows(rows + [row], atoms')
  {
    var more := rows + [row];
    assert more[|rows|] == row;
    forall i, id | IsLast(more, i, id)
      ensures id in atoms' && atoms'[id] == Atom(more[i].after, more[i].text, Key("", 0))
    {
      LastOfMore(rows, row, i, id);
      hide IsLast;
    }
    hide IsLast;
    forall id | id in atoms' ensures exists i :: IsLast(more, i, id) {
      if row.Row? && row.atomId == id {
        LastOfMore(rows, row, |rows|, id);
      } else {
        var i :| IsLast(rows, i, id);
        LastOfMore(rows, row, i, id);
      }
    }
  }

  ghost function Candidates(base: Atoms, events: seq<Event>, id: string): set<Atom> {
    (if id in base then {base[id]} else {})
    + set e | e in events && e.payload.Insert? && e.payload.atomId == id :: Atom(e.payload.after, e.payload.text, e.key)
  }

  /** `id` is placed exactly when it has a candidate, by a least one. */
  ghost predicate Chosen(candidates: set<Atom>, atoms: Atoms, id: string) {
    if id in atoms then atoms[id] in candidates && forall c | c in candidates :: !CandidateLess(c, atoms[id])
    else candidates == {}
  }

  ghost predicate Contested(candidates: set<Atom>, atoms: Atoms, id: string) {
    id in atoms && exists c :: c in candidates && c != atoms[id]
  }

  ghost predicate KeepsLeast(base: Atoms, events: seq<Event>, atoms: Atoms) {
    forall id :: Chosen(Candidates(base, events, id), atoms, id)
  }

  /** Malformed payloads and contested ids are reported, nothing else. */
  ghost predicate ReportsEvents(base: Atoms, events: seq<Event>, atoms: Atoms, before: set<Diagnostic>, after: set<Diagnostic>) {
    forall d :: d in after <==>
      d in before
      || (d.InvalidPayload? && Event(d.key, BadPayload) in events)
      || (d.AtomEquivocation? && Contested(Candidates(base, events, d.atomId), atoms, d.atomId))
  }

  lemma SameCandidates(base: Atoms, a: seq<Event>, b: seq<Event>, id: string)
    requires forall e :: e in a <==> e in b
    ensures Candidates(base, a, id) == Candidates(base, b, id)
  {
  }

  /** Candidates with distinct keys have one least element. */
  lemma LeastIsUnique(base: Atoms, a: seq<Event>, id: string, x: Atom, y: Atom)
    requires forall e, f | e in a && f in a && e.key == f.key :: e == f
    requires forall e | e in a && id in base :: e.key != base[id].key
    requires x in Candidates(base, a, id) && y in Candidates(base, a, id) && !CandidateLess(x, y) && !CandidateLess(y, x)
    ensures x == y
  {
    CandidateTotal(x, y);
    hide CandidateLess;
  }

  /** Among operations with distinct keys the choice does not depend on their
      order. */
  lemma ChoiceIsOrderFree(base: Atoms, a: seq<Event>, atomsA: Atoms, b: seq<Event>, atomsB: Atoms)
    requires KeepsLeast(base, a, atomsA) && KeepsLeast(base, b, atomsB)
    requires forall e :: e in a <==> e in b
    requires forall e, f | e in a && f in a && e.key == f.key :: e == f
    requires forall e, id | e in a && id in base :: e.key != base[id].key
    ensures atomsA == atomsB
  {
    forall id ensures (id in atomsA <==> id in atomsB) && (id in atomsA ==> atomsA[id] == atomsB[id]) {
      hide Candidates, CandidateLess;
      SameCandidates(base, a, b, id);
      assert Chosen(Candidates(base, a, id), atomsA, id) && Chosen(Candidates(base, b, id), atomsB, id);
      if id in atomsA && id in atomsB { LeastIsUnique(base, a, id, atomsA[id], atomsB[id]); }
    }
  }

  method Bootstrap(rows: seq<Row>) returns (atoms: Atoms, deleted: set<string>, bad: bool)
    ensures FromRows(rows, atoms)
    ensures forall id :: id in deleted <==> exists row :: row in rows && row.Row? && row.deleted && row.atomId == id
    ensures bad <==> BadRow in rows
  {
    atoms, deleted, bad := map[], {}, false;
    for i := 0 to |rows|
      invariant FromRows(rows[..i], atoms)
      invariant forall id :: id in deleted <==> exists row :: row in rows[..i] && row.Row? && row.deleted && row.atomId == id
      invariant bad <==> BadRow in rows[..i]
    {
      hide FromRows;
      var row := rows[i];
      ghost var before := atoms;
      assert rows[..i + 1] == rows[..i] + [row];
      match row {
        case BadRow => bad := true;
        case Row(id, after, text, isDeleted) =>
          atoms := atoms[id := Atom(after, text, Key("", 0))];
          if isDeleted { deleted := deleted + {id}; }
      }
      FromMoreRows(rows[..i], row, before, atoms);
    }
    assert rows[..|rows|] == rows;
  }

  lemma CandidatesGrow(base: Atoms, done: seq<Event>, e: Event, id: string)
    ensures Candidates(base, done + [e], id) == Candidates(base, done, id)
      + if e.payload.Insert? && e.payload.atomId == id then {Atom(e.payload.after, e.payload.text, e.key)} else {}
  {
    assert forall x :: x in done + [e] <==> x in done || x == e;
  }

  /** The competition for one id: a strictly smaller newcomer replaces. */
  function Compete(atoms: Atoms, id: string, c: Atom): Atoms {
    if id !in atoms || CandidateLess(c, atoms[id]) then atoms[id := c] else atoms
  }

  lemma CompeteChooses(candidates: set<Atom>, atoms: Atoms, id: string, c: Atom)
    requires Chosen(candidates, atoms, id)
    ensures Chosen(candidates + {c}, Compete(atoms, id, c), id)
    ensures Contested(candidates + {c}, Compete(atoms, id, c), id)
       <==> Contested(candidates, atoms, id) || (id in atoms && atoms[id] != c)
  {
    CandidateTotal(c, c);
    if id in atoms && CandidateLess(c, atoms[id]) {
      var previous := atoms[id];
      forall x | x in candidates ensures !CandidateLess(x, c) {
        if CandidateLess(x, c) { CandidateTransitive(x, c, previous); }
      }
      assert previous in candidates + {c} && previous != c;
    }
    hide CandidateLess;
    if id in atoms && atoms[id] != c && !CandidateLess(c, atoms[id]) {
      assert c in candidates + {c};
    }
  }

  /** What absorbing one operation does to the atoms and the diagnostics. */
  ghost predicate Absorbed(e: Event, atoms: Atoms, diagnostics: set<Diagnostic>, atoms': Atoms, diagnostics': set<Diagnostic>) {
    match e.payload
    case Delete(_) => atoms' == atoms && diagnostics' == diagnostics
    case BadPayload => atoms' == atoms && diagnostics' == diagnostics + {InvalidPayload(e.key)}
    case Insert(id, after, text) =>
      var c := Atom(after, text, e.key);
      && atoms' == Compete(atoms, id, c)
      && diagnostics' == diagnostics + if id in atoms && atoms[id] != c then {AtomEquivocation(id)} else {}
  }

  lemma AbsorbChooses(base: Atoms, done: seq<Event>, e: Event, atoms: Atoms, diagnostics: set<Diagnostic>,
                      atoms': Atoms, diagnostics': set<Diagnostic>, id: string)
    requires Chosen(Candidates(base, done, id), atoms, id) && Absorbed(e, atoms, diagnostics, atoms', diagnostics')
    ensures Chosen(Candidates(base, done + [e], id), atoms', id)
    ensures Contested(Candidates(base, done + [e], id), atoms', id)
       <==> Contested(Candidates(base, done, id), atoms, id)
            || (e.payload.Insert? && e.payload.atomId == id && id in atoms
                && atoms[id] != Atom(e.payload.after, e.payload.text, e.key))
  {
    CandidatesGrow(base, done, e, id);
    hide Candidates;
    if e.payload.Insert? && e.payload.atomId == id {
      CompeteChooses(Candidates(base, done, id), atoms, id, Atom(e.payload.after, e.payload.text, e.key));
    } else {
      assert Candidates(base, done + [e], id) == Candidates(base, done, id);
      hide CandidateLess;
      assert (id in atoms' <==> id in atoms) && (id in atoms ==> atoms'[id] == atoms[id]);
    }
  }

  lemma AbsorbKeeps(base: Atoms, done: seq<Event>, e: Event, atoms: Atoms, before: set<Diagnostic>,
                    diagnostics: set<Diagnostic>, atoms': Atoms, diagnostics': set<Diagnostic>)
    requires KeepsLeast(base, done, atoms) && ReportsEvents(base, done, atoms, before, diagnostics)
    requires Absorbed(e, atoms, diagnostics, atoms', diagnostics')
    ensures KeepsLeast(base, done + [e], atoms') && ReportsEvents(base, done + [e], atoms', before, diagnostics')
  {
    hide Candidates, CandidateLess, Chosen, Contested, Compete;
    forall id
      ensures Chosen(Candidates(base, done + [e], id), atoms', id)
      ensures Contested(Candidates(base, done + [e], id), atoms', id)
         <==> Contested(Candidates(base, done, id), atoms, id)
              || (e.payload.Insert? && e.payload.atomId == id && id in atoms
                  && atoms[id] != Atom(e.payload.after, e.payload.text, e.key))
    {
      AbsorbChooses(base, done, e, atoms, diagnostics, atoms', diagnostics', id);
    }
  }

  /** Reads the operations in order. */
  method Absorb(base: Atoms, baseDeleted: set<string>, before: set<Diagnostic>, events: seq<Event>)
    returns (atoms: Atoms, deleted: set<string>, diagnostics: set<Diagnostic>)
    ensures KeepsLeast(base, events, atoms) && ReportsEvents(base, events, atoms, before, diagnostics)
    ensures forall id :: id in deleted <==> id in baseDeleted || exists e :: e in events && e.payload == Delete(id)
  {
    atoms, deleted, diagnostics := base, baseDeleted, before;
    StartKeeps(base, before);
    for i := 0 to |events|
      invariant KeepsLeast(base, events[..i], atoms) && ReportsEvents(base, events[..i], atoms, before, diagnostics)
      invariant forall id :: id in deleted <==> id in baseDeleted || exists e :: e in events[..i] && e.payload == Delete(id)
    {
      hide KeepsLeast, ReportsEvents, CandidateLess;
      var e := events[i];
      ghost var atoms0, diagnostics0 := atoms, diagnostics;
      assert events[..i + 1] == events[..i] + [e];
      match e.payload {
        case BadPayload => diagnostics := diagnostics + {InvalidPayload(e.key)};
        case Delete(id) => deleted := deleted + {id};
        case Insert(id, after, text) =>
          var candidate := Atom(after, text, e.key);
          if id in atoms {
            var previous := atoms[id];
            if previous != candidate {
              diagnostics := diagnostics + {AtomEquivocation(id)};
              if CandidateLess(candidate, previous) { atoms := atoms[id := candidate]; }
            } else {
              CandidateTotal(candidate, candidate);
            }
          } else {
            atoms := atoms[id := candidate];
          }
      }
      AbsorbKeeps(base, events[..i], e, atoms0, before, diagnostics0, atoms, diagnostics);
    }
    assert events[..|events|] == events;
  }

  lemma StartKeeps(base: Atoms, before: set<Diagnostic>)
    ensures KeepsLeast(base, [], base) && ReportsEvents(base, [], base, before, before)
  {
    forall id ensures Chosen(Candidates(base, [], id), base, id) && !Contested(Candidates(base, [], id), base, id) {
      if id in base { CandidateTotal(base[id], base[id]); }
    }
  }
}
