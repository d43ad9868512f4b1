/** What the log answers and sends, in terms of its fields and its history
    alone. */
module LogOutcomes {
  import opened Wrappers
  import opened Sequences
  import opened Timers
  import opened Mailbox
  import opened Records
  import opened LogWindow
  import opened LogSession
  import opened LogSpec
  import opened LogNode

  /* ---------- Answers ---------- */

  /** Every position has one answer: beyond the head or below the retained part
      expired, with the nearest readable position; below the head data; at the
      head the way the log ended, or nothing while it is live. */
  lemma AnswerKinds(w: WindowState, id: string, q: Request)
    ensures q.cursor > w.head ==> AnswerAt(w, id, q) == Some(Response(id, [], w.head, Expired, None))
    ensures q.cursor <= w.head && q.cursor + 1 < w.floor ==>
      AnswerAt(w, id, q) == Some(Response(id, [], w.floor - 1, Expired, None))
    ensures q.cursor < w.head && w.floor <= q.cursor + 1 ==>
      AnswerAt(w, id, q).Some? && AnswerAt(w, id, q).value.streamId == id
      && AnswerAt(w, id, q).value.state == Data && AnswerAt(w, id, q).value.error.None?
    ensures q.cursor == w.head && w.floor <= q.cursor + 1 ==>
      match w.lifecycle
      case Live => AnswerAt(w, id, q).None?
      case Sealed => AnswerAt(w, id, q) == Some(Response(id, [], w.head, Eof, None))
      case Closed => AnswerAt(w, id, q) == Some(Response(id, [], w.head, ReadState.Closed, None))
      case Failed(e) => AnswerAt(w, id, q) == Some(Response(id, [], w.head, ReadState.Failed, Some(e)))
  {
  }

  /* ---------- Reads ---------- */

  /** A read sends the cancellation of the read it supersedes, then its answer;
      one that waits is told the state of the log if it probes, and otherwise
      sends its timer. */
  lemma ReadSends(w: WindowState, t: TableState, d0: map<string, nat>, id: string, q: Request, timeoutMs: Option<nat>,
                  token: int, entries: Entries, d: map<string, nat>, out: seq<Sent>)
    requires ReadDone(w, t, d0, id, q, timeoutMs, token, entries, d, out)
    ensures var cancels: seq<Sent> :=
        if id in t.entries && t.entries[id].held.Some? && t.entries[id].held.value.timer.Some?
        then [CancelTimer(t.entries[id].held.value.timer.value)] else [];
      && (AnswerAt(w, id, q).Some? ==> out == cancels + [ReadResponse(AnswerAt(w, id, q).value)])
      && (AnswerAt(w, id, q).None? && timeoutMs == Some(0) ==>
            out == cancels + [ReadResponse(Response(id, [], q.cursor, WouldBlock, None))])
      && (AnswerAt(w, id, q).None? && timeoutMs == None ==> out == cancels)
      && (AnswerAt(w, id, q).None? && timeoutMs.Some? && timeoutMs.value > 0 ==> out == cancels + [SetTimer(token, timeoutMs.value)])
  {
    hide AnswerAt;
    HeldTableAt(t.entries, id);
  }

  /** It leaves its stream open, holding the read exactly if it waits, and moved
      to the next cursor exactly by data; no other stream is touched. */
  lemma ReadLeaves(w: WindowState, t: TableState, d0: map<string, nat>, id: string, q: Request, timeoutMs: Option<nat>,
                   token: int, entries: Entries, d: map<string, nat>, out: seq<Sent>)
    requires ReadDone(w, t, d0, id, q, timeoutMs, token, entries, d, out)
    ensures entries.Keys == t.entries.Keys + {id} && forall x | x in t.entries && x != id :: entries[x] == t.entries[x]
    ensures var r := AnswerAt(w, id, q);
      && (entries[id].held.Some? <==> r.None? && timeoutMs != Some(0))
      && (entries[id].held.Some? ==>
            entries[id].held.value == Held(q, if timeoutMs.Some? then Some(token) else None))
      && (r.Some? && r.value.state == Data ==> entries[id].watermark == r.value.nextCursor && d == d0[id := r.value.nextCursor])
      && (!(r.Some? && r.value.state == Data) ==>
            entries[id].watermark == (if id in t.entries then t.entries[id].watermark else 0) && d == d0)
      && entries[id].created == if id in t.entries then t.entries[id].created else t.nextRank
  {
    hide AnswerAt;
  }

  /** A new stream is the last in the order of creation; a known one keeps its
      place. */
  lemma NewComesLast(t: TableState, id: string)
    requires Ranked(t.entries, t.nextRank)
    ensures forall x | x in t.entries :: x in Opened(t, id).entries && Opened(t, id).entries[x] == t.entries[x]
    ensures id !in t.entries ==>
      id in Opened(t, id).entries && forall x | x in t.entries :: t.entries[x].created < Opened(t, id).entries[id].created
  {
  }

  /* ---------- The release sweep ---------- */

  /** What one stream with a held read is sent: the cancellation of its timer,
      if it has one, and the answer. */
  ghost predicate WokenWith(w: WindowState, held: Entries, id: string, piece: seq<Sent>) {
    && id in held && held[id].held.Some?
    && var h := held[id].held.value;
    && AnswerAt(w, id, h.request).Some?
    && piece == (if h.timer.Some? then [CancelTimer(h.timer.value)] else []) + [ReadResponse(AnswerAt(w, id, h.request).value)]
  }

  lemma WakesOne(w: WindowState, held: Entries, id: string)
    requires Answerable(w, held) && IsHeld(held, id)
    ensures WokenWith(w, held, id, Wake1(w, id, held[id]))
  {
    hide AnswerAt;
  }

  /** The sweep sends that stream by stream. */
  lemma {:induction false} ReleaseSends(w: WindowState, held: Entries, ids: seq<string>) returns (pieces: seq<seq<Sent>>)
    requires Answerable(w, held) && forall i | 0 <= i < |ids| :: IsHeld(held, ids[i])
    ensures |pieces| == |ids| && Wakes(w, held, ids) == Flat(pieces)
    ensures forall i | 0 <= i < |ids| :: WokenWith(w, held, ids[i], pieces[i])
    decreases |ids|
  {
    hide AnswerAt, Answerable, WokenWith, Wake1;
    if ids == [] {
      pieces := [];
    } else {
      var n := |ids| - 1;
      var before := ReleaseSends(w, held, ids[..n]);
      var piece := Wake1(w, ids[n], held[ids[n]]);
      WakesOne(w, held, ids[n]);
      FlatMore(before, piece);
      pieces := before + [piece];
      forall i | 0 <= i < |ids| ensures WokenWith(w, held, ids[i], pieces[i]) {
        if i < n { assert ids[..n][i] == ids[i] && WokenWith(w, held, ids[..n][i], before[i]); }
      }
    }
  }

  /** It leaves no read of those streams held, and each moved by data alone. */
  lemma ReleaseLeaves(w: WindowState, before: Entries, ids: seq<string>, entries: Entries, out: seq<Sent>,
                      d0: map<string, nat>, d: map<string, nat>, id: string)
    requires Woken(w, before, ids, entries, out, d0, d) && Answerable(w, before) && id in before
    ensures entries.Keys == before.Keys && entries[id].created == before[id].created
    ensures id !in ids || before[id].held.None? ==> entries[id] == before[id]
    ensures id in ids && before[id].held.Some? ==>
      var r := AnswerAt(w, id, before[id].held.value.request);
      && r.Some? && entries[id].held.None?
      && entries[id].watermark == if r.value.state == Data then r.value.nextCursor else before[id].watermark
  {
    hide AnswerAt;
    if before[id].held.Some? { assert IsHeld(before, id); }
  }
}
