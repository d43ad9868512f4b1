/** The retained records of a log, dense and scanned by direct index. */
module LogWindow {
  import opened Wrappers
  import opened Records

  datatype ErrorCode = UnknownLog | ProducerError | Internal
  datatype Error = Error(code: ErrorCode, message: Option<string>)
  datatype Lifecycle = Live | Sealed | Closed | Failed(error: Error)
  datatype WindowState = WindowState(records: seq<Record>, head: nat, floor: nat, lifecycle: Lifecycle)

  /** The last position that is no longer retained. */
  function Evicted(w: WindowState): nat { if w.floor == 0 then 0 else w.floor - 1 }

  /** The window is the tail of the history above the floor. */
  ghost predicate Dense(w: WindowState, history: seq<Bytes>) {
    && w.head == |history| && Evicted(w) <= w.head
    && w.records == Entries(history, Evicted(w), w.head)
  }

  /* ---------- Scanning ---------- */

  /** The retained records after `from`. */
  function Available(w: WindowState, from: nat): seq<Record> {
    if w.records == [] then []
    else
      var skip := if from >= w.records[0].seqNo then from - w.records[0].seqNo + 1 else 0;
      if skip <= |w.records| then w.records[skip..] else []
  }

  function Scan(w: WindowState, from: nat, limits: Limits): seq<Record> {
    EmptyFits(limits, Available(w, from));
    Available(w, from)[..LongestFit(limits, Available(w, from), 0)]
  }

  /** A scan from a retained position returns exactly the history after it, as
      the longest batch within the limits, and something unless no record is
      allowed. */
  lemma ScanIsHistory(w: WindowState, history: seq<Bytes>, from: nat, limits: Limits)
    requires Dense(w, history) && Evicted(w) <= from < w.head
    ensures var recs := Scan(w, from, limits);
      var last := LastSeq(from, recs);
      && from <= last <= w.head && recs == Entries(history, from, last)
      && Fits(limits, recs)
      && (forall m | last < m <= w.head :: !Fits(limits, Entries(history, from, m)))
      && (limits.maxRecords != Some(0) ==> last > from)
  {
    assert Available(w, from) == Entries(history, from, w.head);
    LongestIsHistory(limits, history, from, w.head);
  }

  class Window {
    var records: seq<Record>
    var head: nat
    var floor: nat
    var lifecycle: Lifecycle
    /** The payloads of all records ever pushed. */
    ghost var history: seq<Bytes>

    function Value(): WindowState
      reads `records, `head, `floor, `lifecycle
    {
      WindowState(records, head, floor, lifecycle)
    }

    ghost predicate Valid()
      reads this
    {
      Dense(Value(), history)
    }

    constructor ()
      ensures Valid() && Value() == WindowState([], 0, 0, Live) && history == []
    {
      records, head, floor, lifecycle, history := [], 0, 0, Live, [];
    }

    method Push(payload: Bytes) returns (seqNo: nat)
      requires Valid()
      modifies `records, `head, `history
      ensures Valid() && history == old(history) + [payload]
      ensures seqNo == head == old(head) + 1 && records == old(records) + [Record(head, payload)]
    {
      head := head + 1;
      seqNo := head;
      records := records + [Record(seqNo, payload)];
      history := history + [payload];
    }

    method Seal()
      modifies `lifecycle
      ensures lifecycle == if old(lifecycle) == Live then Sealed else old(lifecycle)
    {
      if lifecycle == Live { lifecycle := Sealed; }
    }

    method Close(error: Option<Error>)
      modifies `lifecycle
      ensures lifecycle == if old(lifecycle) !in {Live, Sealed} then old(lifecycle)
                           else if error.None? then Closed else Failed(error.value)
    {
      if lifecycle == Live || lifecycle == Sealed {
        lifecycle := match error case None => Closed case Some(e) => Failed(e);
      }
    }

    /** The loop over the records from a directly computed index. */
    method ScanFrom(from: nat, limits: Limits) returns (out: seq<Record>, last: nat)
      requires Valid()
      ensures out == Scan(Value(), from, limits) && last == LastSeq(from, out)
    {
      hide Fits, LongestFit, TotalBytes, Dense;
      out, last := [], from;
      ghost var avail := Available(Value(), from);
      EmptyFits(limits, avail);
      NothingAvailable(limits);
      if records == [] { return; }
      var start := if from >= records[0].seqNo then from - records[0].seqNo + 1 else 0;
      var bytes: nat := 0;
      for i := start to Max(start, |records|)
        invariant |out| == i - start <= |avail| && out == avail[..i - start]
        invariant Fits(limits, out) && LongestFit(limits, avail, i - start) == LongestFit(limits, avail, 0)
        invariant last == LastSeq(from, out)
        invariant limits.maxBytes.Some? ==> bytes == Min(TotalBytes(out), U64_MAX)
      {
        var rec := records[i];
        assert rec == avail[i - start];
        ScanStep(limits, avail, i - start, bytes);
        assert avail[..i - start + 1] == out + [rec];
        if limits.maxRecords.Some? && |out| >= limits.maxRecords.value { return; }
        if limits.maxBytes.Some? {
          var next := Min(bytes + |rec.payload|, U64_MAX);
          if out != [] && next > limits.maxBytes.value { return; }
          bytes := next;
        }
        last := rec.seqNo;
        out := out + [rec];
      }
      ScanEnds(limits, avail);
    }

    /** Drops the records up to a position; the floor only rises. */
    method Evict(upTo: nat)
      requires Valid()
      modifies `records, `floor
      ensures Valid()
      ensures floor == if upTo == 0 then old(floor) else Max(old(floor), Min(upTo, head) + 1)
    {
      if upTo == 0 { return; }
      ghost var gone := Evicted(Value());
      while records != [] && records[0].seqNo <= upTo
        invariant gone <= head && Evicted(old(Value())) <= gone && records == Entries(history, gone, head)
        invariant (gone == Evicted(old(Value())) || gone <= upTo) && floor == old(floor)
        decreases |records|
      {
        records := records[1..];
        gone := gone + 1;
      }
      var newFloor := Min(upTo, head) + 1;
      if newFloor > floor { floor := newFloor; }
    }
  }
}
