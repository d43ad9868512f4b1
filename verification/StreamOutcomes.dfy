/** What a read of the stream leaves behind and sends, in terms of the fields
    alone. */
module StreamOutcomes {
  import opened Wrappers
  import opened Records
  import opened Timers
  import opened Mailbox
  import opened StreamSpec
  import opened StreamNode

  /** A read finds its reader where it was, a new one at the head; that is the
      position answered, and the one a new journal starts at. */
  lemma ReadFrom(r: Ring, before: Readers, journals0: Journals, order0: seq<string>, id: string, q: Request, token: int,
                 stopWhen: StopWhen, readers: Readers, journals: Journals, order: seq<string>, out: seq<Sent>) returns (from: nat)
    requires ReadDone(r, before, journals0, order0, id, q, token, stopWhen, readers, journals, order, out)
    ensures from == if id in before then before[id].cursor else r.head
    ensures var a := Resolve(r, id, q, from);
      && (a.Some? ==> ReadResponse(a.value) in out)
      && (a.Some? && a.value.state != Dropped ==> readers == before[id := Reader(a.value.nextPosition, None)])
      && (a.None? ==> id in readers && readers[id].cursor == from && readers[id].held.Some? && readers == before[id := readers[id]])
      && (a.Some? && a.value.state == Dropped ==> readers == before - {id} && journals == journals0 - {id})
    ensures id in readers ==> id in journals && journals[id].joined == if id in journals0 then journals0[id].joined else r.head
  {
    from := if id in before then before[id].cursor else r.head;
    hide Resolve, HeldTable, Listed, Without;
  }

  /** What is sent: the cancellation of the read superseded, then the answer, or
      the timer of a read that waits with a positive timeout; a reader that is
      dropped as the last one may stop the producer. */
  lemma ReadSends(r: Ring, before: Readers, journals0: Journals, order0: seq<string>, id: string, q: Request, token: int,
                  stopWhen: StopWhen, readers: Readers, journals: Journals, order: seq<string>, out: seq<Sent>)
    requires ReadDone(r, before, journals0, order0, id, q, token, stopWhen, readers, journals, order, out)
    ensures var a := Resolve(r, id, q, if id in before then before[id].cursor else r.head);
      var cancels: seq<Sent> := if id in before && before[id].held.Some? && before[id].held.value.timer.Some?
                                then [CancelTimer(before[id].held.value.timer.value)] else [];
      && (a.Some? && a.value.state != Dropped ==> out == cancels + [ReadResponse(a.value)])
      && (a.Some? && a.value.state == Dropped ==>
            out == cancels + ([ReadResponse(a.value)]
                     + if readers == map[] && stopWhen == LastReader then [ProducerStop(LastReaderGone)] else []))
      && (a.None? && q.timeoutMs.Some? && q.timeoutMs.value > 0 ==>
            out == cancels + [SetTimer(token, q.timeoutMs.value)] && id in readers && readers[id].held == Some(Held(q, Some(token))))
      && (a.None? && (q.timeoutMs.None? || q.timeoutMs.value <= 0) ==>
            out == cancels && id in readers && readers[id].held == Some(Held(q, None)))
  {
    hide Resolve, HeldTable, Listed, Without;
    HeldTableWith(before, id, Reader(0, None));
  }

  /** A sweep moves a held reader exactly by its answer. */
  lemma SweepLeaves(r: Ring, before: Readers, journals0: Journals, order: seq<string>, readers: Readers, journals: Journals,
                    out: seq<Sent>, id: string)
    requires SweepDone(r, before, journals0, order, readers, journals, out) && id in before
    ensures readers.Keys == before.Keys
    ensures before[id].held.None? ==> readers[id] == before[id]
    ensures before[id].held.Some? ==>
      var a := Resolve(r, id, before[id].held.value.request, before[id].cursor);
      readers[id] == if a.Some? then Reader(a.value.nextPosition, None) else before[id]
  {
    hide Resolve;
  }
}
