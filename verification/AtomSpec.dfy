/** The latest-value mailbox's store and the answers it gives, as values. */
module AtomSpec {
  import opened Wrappers
  import opened Timers
  import opened Mailbox

  datatype ReadState = Data | WouldBlock | Eof | Closed | Failed
  datatype ErrorCode = UnknownAtom | ProducerError | Internal
  datatype Error = Error(code: ErrorCode, message: Option<string>)
  datatype Value = Value(version: int, payload: Bytes)
  /** A read, and how it is kept while held: its version is resolved. */
  datatype Request = Request(atomId: string, version: int, timeoutMs: Option<int>)
  datatype Response = Response(
    atomId: string,
    streamId: string,
    value: Option<Value>,
    nextVersion: int,
    state: ReadState,
    error: Option<Error>)
  datatype Diag = ReplaceAfterTerminal
  type Sent = Mailbox.Output<Response, Diag>

  datatype Store = Store(version: int, payload: Option<Bytes>, sealed: bool, closed: bool, closeError: Option<Error>)

  /** The read whose payload the source expects and does not find. */
  predicate Panics(s: Store, q: Request) { q.version < s.version && s.payload.None? }

  /** The answer to a read, None when it is to wait. */
  function Resolve(s: Store, streamId: string, q: Request): Option<Response> {
    if q.version < s.version then
      Some(Response(q.atomId, streamId, Some(Value(s.version, if s.payload.Some? then s.payload.value else [])), s.version, Data,
                    None))
    else if s.closed then
      Some(Response(q.atomId, streamId, None, s.version, if s.closeError.Some? then Failed else Closed, s.closeError))
    else if s.sealed then Some(Response(q.atomId, streamId, None, s.version, Eof, None))
    else if q.timeoutMs == Some(0) then Some(Response(q.atomId, streamId, None, s.version, WouldBlock, None))
    else None
  }

  function Replier(s: Store): (string, Request) -> Option<Response> { (id, q) => Resolve(s, id, q) }

  /** The store holds the last of the replacements ever accepted, numbered from
      one. */
  ghost predicate Latest(s: Store, history: seq<Bytes>) {
    && s.version == |history|
    && s.payload == if history == [] then None else Some(history[|history| - 1])
  }

  /** The payload is missing exactly for a negative version asked of a store
      that was never written. */
  lemma PanicsExactly(s: Store, history: seq<Bytes>, q: Request)
    requires Latest(s, history)
    ensures Panics(s, q) <==> history == [] && q.version < 0
  {
  }

  /** Data is answered exactly to a read behind the latest version, and is that
      version; a read waits exactly when not behind, on a live mailbox, unless
      it probes; every other answer names the latest version without a value. */
  lemma AnswersExactly(s: Store, history: seq<Bytes>, streamId: string, q: Request)
    requires Latest(s, history) && !Panics(s, q)
    ensures var a := Resolve(s, streamId, q);
      && (a.Some? && a.value.state == Data <==> q.version < |history|)
      && (a.None? <==> q.version >= |history| && !s.sealed && !s.closed && q.timeoutMs != Some(0))
      && (a.Some? ==> a.value.nextVersion == |history| && a.value.streamId == streamId && a.value.atomId == q.atomId)
      && (a.Some? && a.value.state == Data ==>
            history != [] && a.value.value == Some(Value(|history|, history[|history| - 1])))
      && (a.Some? && a.value.state != Data ==> a.value.value == None)
  {
  }

  /** A read that gets no data gets how the mailbox ended, the error only of a
      failed one, then a probe's empty answer; otherwise it waits. */
  lemma AnswerKinds(s: Store, streamId: string, q: Request)
    ensures q.version < s.version ==>
      Resolve(s, streamId, q).Some? && Resolve(s, streamId, q).value.state == Data && Resolve(s, streamId, q).value.error.None?
    ensures q.version >= s.version && s.closed ==>
      Resolve(s, streamId, q) == Some(Response(q.atomId, streamId, None, s.version,
                                               match s.closeError case None => Closed case Some(_) => Failed, s.closeError))
    ensures q.version >= s.version && !s.closed && s.sealed ==>
      Resolve(s, streamId, q) == Some(Response(q.atomId, streamId, None, s.version, Eof, None))
    ensures q.version >= s.version && !s.closed && !s.sealed && q.timeoutMs == Some(0) ==>
      Resolve(s, streamId, q) == Some(Response(q.atomId, streamId, None, s.version, WouldBlock, None))
    ensures q.version >= s.version && !s.closed && !s.sealed && q.timeoutMs != Some(0) ==> Resolve(s, streamId, q).None?
  {
  }

  /** What is held now is neither answerable nor ever panics, whatever is
      accepted later; probed, it is answered. */
  lemma HeldIsSafe(s: Store, history: seq<Bytes>, streamId: string, q: Request, s': Store, history': seq<Bytes>)
    requires Latest(s, history) && Resolve(s, streamId, q).None? && Latest(s', history') && history <= history'
    ensures !Panics(s', q)
    ensures Resolve(s, streamId, q.(timeoutMs := Some(0))) == Some(Response(q.atomId, streamId, None, |history|, WouldBlock, None))
  {
  }

  ghost predicate Waiting(s: Store, streams: Table<Request>) {
    forall id | id in streams && streams[id].Some? :: Resolve(s, id, streams[id].value.request).None?
  }

  lemma ReadWaits(s: Store, streams: Table<Request>, id: string, q: Request, token: int)
    requires Waiting(s, streams)
    ensures Waiting(s, streams[id := Parked(Resolve(s, id, q), q, q.timeoutMs, token)])
    ensures streams[id := None][id := Parked(Resolve(s, id, q), q, q.timeoutMs, token)]
         == streams[id := Parked(Resolve(s, id, q), q, q.timeoutMs, token)]
  {
    hide Resolve;
  }

  lemma ReleasedWaits(s: Store, streams: Table<Request>)
    ensures Waiting(s, Released(Replier(s), streams))
  {
  }

  /* ---------- A reader that follows its answers ---------- */

  /** One answer: the store and history at that moment and the read. */
  datatype Exchange = Exchange(s: Store, history: seq<Bytes>, streamId: string, q: Request)

  function AnswerOf(x: Exchange): Option<Response> { Resolve(x.s, x.streamId, x.q) }

  /** Answers in time order, each read from the version the last one gave. */
  ghost predicate Followed(xs: seq<Exchange>) {
    && (forall i | 0 <= i < |xs| :: Latest(xs[i].s, xs[i].history) && !Panics(xs[i].s, xs[i].q) && AnswerOf(xs[i]).Some?)
    && (forall i | 0 < i < |xs| :: xs[i - 1].history <= xs[i].history)
    && (forall i | 0 < i < |xs| :: xs[i].q.version == AnswerOf(xs[i - 1]).value.nextVersion)
  }

  lemma {:induction false} HistoriesGrow(xs: seq<Exchange>, i: nat, j: nat)
    requires Followed(xs) && i <= j < |xs|
    ensures xs[i].history <= xs[j].history
    decreases j
  {
    if i < j { HistoriesGrow(xs, i, j - 1); }
  }

  /** The values a reader is sent have strictly rising versions, each the
      replacement accepted under that version: none is sent twice, none out of
      order. */
  lemma VersionsRise(xs: seq<Exchange>, i: nat, j: nat)
    requires Followed(xs) && i < j < |xs|
    requires AnswerOf(xs[i]).value.state == Data && AnswerOf(xs[j]).value.state == Data
    ensures var v, w := AnswerOf(xs[i]).value.value, AnswerOf(xs[j]).value.value;
      && v.Some? && w.Some? && 0 < v.value.version < w.value.version <= |xs[j].history|
      && v.value.payload == xs[j].history[v.value.version - 1] && w.value.payload == xs[j].history[w.value.version - 1]
  {
    AnswersExactly(xs[i].s, xs[i].history, xs[i].streamId, xs[i].q);
    AnswersExactly(xs[j].s, xs[j].history, xs[j].streamId, xs[j].q);
    AnswersExactly(xs[j - 1].s, xs[j - 1].history, xs[j - 1].streamId, xs[j - 1].q);
    HistoriesGrow(xs, i, j - 1);
    HistoriesGrow(xs, i, j);
  }
}
