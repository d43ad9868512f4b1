/** Records numbered by position, as slices of everything ever pushed, and the
    longest batch of them within limits. */
module Records {
  import opened Wrappers
  import opened Sequences

  datatype Record = Record(seqNo: nat, payload: Bytes)
  datatype Limits = Limits(maxRecords: Option<nat>, maxBytes: Option<nat>)

  const U64_MAX := 0xFFFF_FFFF_FFFF_FFFF

  function Min(a: int, b: int): int { if a < b then a else b }
  function Max(a: int, b: int): int { if a < b then b else a }

  /** The records after position `a` up to position `b`. */
  function Entries(history: seq<Bytes>, a: nat, b: nat): (r: seq<Record>)
    requires a <= b <= |history|
    ensures |r| == b - a && forall i | 0 <= i < b - a :: r[i] == Record(a + i + 1, history[a + i])
  {
    seq(b - a, i requires 0 <= i < b - a => Record(a + i + 1, history[a + i]))
  }

  lemma EntriesJoin(history: seq<Bytes>, longer: seq<Bytes>, a: nat, b: nat, c: nat)
    requires a <= b <= |history| && history <= longer && b <= c <= |longer|
    ensures Entries(history, a, b) + Entries(longer, b, c) == Entries(longer, a, c)
  {
  }

  /* ---------- Batches ---------- */

  function TotalBytes(recs: seq<Record>): nat {
    if recs == [] then 0 else TotalBytes(recs[..|recs| - 1]) + |recs[|recs| - 1].payload|
  }

  /** A batch within the limits: payload bytes are counted in 64 bits,
      saturating, and never stop the first record. */
  predicate Fits(limits: Limits, recs: seq<Record>) {
    && (limits.maxRecords.Some? ==> |recs| <= limits.maxRecords.value)
    && (limits.maxBytes.Some? && |recs| > 1 ==> Min(TotalBytes(recs), U64_MAX) <= limits.maxBytes.value)
  }

  lemma {:induction false} FitsShrinks(limits: Limits, recs: seq<Record>, k: nat)
    requires k <= |recs| && Fits(limits, recs)
    ensures Fits(limits, recs[..k])
    decreases |recs|
  {
    if k < |recs| {
      assert recs[..|recs| - 1][..k] == recs[..k];
      FitsShrinks(limits, recs[..|recs| - 1], k);
    } else {
      assert recs[..k] == recs;
    }
  }

  /** The length of the longest prefix within the limits, found from `k` on. */
  function LongestFit(limits: Limits, recs: seq<Record>, k: nat): (n: nat)
    requires k <= |recs| && Fits(limits, recs[..k])
    ensures k <= n <= |recs| && Fits(limits, recs[..n])
    decreases |recs| - k
  {
    if k < |recs| && Fits(limits, recs[..k + 1]) then LongestFit(limits, recs, k + 1) else k
  }

  lemma {:induction false} LongestFitIsLongest(limits: Limits, recs: seq<Record>, k: nat, m: nat)
    requires k <= m <= |recs| && Fits(limits, recs[..k]) && Fits(limits, recs[..m])
    ensures m <= LongestFit(limits, recs, k)
    decreases |recs| - k
  {
    if k < m {
      FitsShrinks(limits, recs[..m], k + 1);
      assert recs[..m][..k + 1] == recs[..k + 1];
      LongestFitIsLongest(limits, recs, k + 1, m);
    }
  }

  lemma EmptyFits(limits: Limits, recs: seq<Record>)
    ensures Fits(limits, recs[..0])
  {
  }

  function LastSeq(from: nat, recs: seq<Record>): nat { if recs == [] then from else recs[|recs| - 1].seqNo }

  /** The longest batch from a position is exactly the history after it, no
      longer one fits, and it is empty only if no record is allowed. */
  lemma LongestIsHistory(limits: Limits, history: seq<Bytes>, from: nat, head: nat)
    requires from < head <= |history|
    ensures Fits(limits, Entries(history, from, head)[..0])
    ensures var avail := Entries(history, from, head);
      var recs := avail[..LongestFit(limits, avail, 0)];
      var last := LastSeq(from, recs);
      && from <= last <= head && recs == Entries(history, from, last)
      && Fits(limits, recs)
      && (forall m | last < m <= head :: !Fits(limits, Entries(history, from, m)))
      && (limits.maxRecords != Some(0) ==> last > from)
  {
    var avail := Entries(history, from, head);
    EmptyFits(limits, avail);
    var n := LongestFit(limits, avail, 0);
    assert avail[..n] == Entries(history, from, from + n);
    forall m | from + n < m <= head ensures !Fits(limits, Entries(history, from, m)) {
      assert Entries(history, from, m) == avail[..m - from];
      if Fits(limits, avail[..m - from]) { LongestFitIsLongest(limits, avail, 0, m - from); }
    }
    if limits.maxRecords != Some(0) && n == 0 { LongestFitIsLongest(limits, avail, 0, 1); }
  }

  /** One iteration of the scan: the checks decide whether one more fits. */
  lemma ScanStep(limits: Limits, avail: seq<Record>, k: nat, bytes: nat)
    requires k < |avail| && Fits(limits, avail[..k])
    requires limits.maxBytes.Some? ==> bytes == Min(TotalBytes(avail[..k]), U64_MAX)
    ensures Fits(limits, avail[..k + 1]) <==>
      (limits.maxRecords.Some? ==> k < limits.maxRecords.value)
      && (limits.maxBytes.Some? && k > 0 ==> Min(bytes + |avail[k].payload|, U64_MAX) <= limits.maxBytes.value)
    ensures limits.maxBytes.Some? ==> Min(TotalBytes(avail[..k + 1]), U64_MAX) == Min(bytes + |avail[k].payload|, U64_MAX)
    ensures LongestFit(limits, avail, k) == if Fits(limits, avail[..k + 1]) then LongestFit(limits, avail, k + 1) else k
  {
    assert avail[..k + 1][..k] == avail[..k];
  }

  lemma ScanEnds(limits: Limits, avail: seq<Record>)
    ensures Fits(limits, avail[..|avail|]) ==> LongestFit(limits, avail, |avail|) == |avail|
    ensures avail[..|avail|] == avail
  {
  }

  lemma NothingAvailable(limits: Limits)
    ensures Fits(limits, []) && LongestFit(limits, [], 0) == 0 && TotalBytes([]) == 0
  {
  }

  /* ---------- Limits ---------- */

  function Payloads(recs: seq<Record>): seq<Bytes> { seq(|recs|, i requires 0 <= i < |recs| => recs[i].payload) }

  lemma {:induction false} TotalIsLength(recs: seq<Record>)
    ensures TotalBytes(recs) == |Flat(Payloads(recs))|
  {
    if recs != [] {
      var n := |recs| - 1;
      TotalIsLength(recs[..n]);
      assert Payloads(recs)[..n] == Payloads(recs[..n]);
    }
  }

  /** The limits: no more records than allowed, and beyond the first no more
      payload bytes, of which a limit of 2^64 - 1 allows any number. */
  lemma FitsExactly(limits: Limits, recs: seq<Record>)
    ensures Fits(limits, recs) <==>
      && (limits.maxRecords.Some? ==> |recs| <= limits.maxRecords.value)
      && (limits.maxBytes.Some? && |recs| > 1 ==>
            |Flat(Payloads(recs))| <= limits.maxBytes.value || 0xFFFF_FFFF_FFFF_FFFF <= limits.maxBytes.value)
  {
    TotalIsLength(recs);
  }
}
