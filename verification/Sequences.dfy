/** Joining sequences. */
module Sequences {

  function Flat<T>(pieces: seq<seq<T>>): seq<T> {
    if pieces == [] then [] else Flat(pieces[..|pieces| - 1]) + pieces[|pieces| - 1]
  }

  lemma FlatMore<T>(pieces: seq<seq<T>>, piece: seq<T>)
    ensures Flat(pieces + [piece]) == Flat(pieces) + piece
  {
    assert (pieces + [piece])[..|pieces|] == pieces;
  }
}
