/** Bounded latency accounting: a FIFO of unfinished batches, a histogram of 1 ms buckets, and a
    99th percentile that must never be better than the true one.  Times are real seconds. */
module BatchLatency {
  import opened Results
  import opened Bytes
  import LoadSource

  datatype Batch = Batch(started: real, span: LoadSource.Batch)

  /** A batch whose last line was seen at `at`. */
  datatype Settled = Settled(batch: Batch, at: real)

  function BatchLines(b: Batch): nat {
    if b.span.before <= b.span.after then b.span.after - b.span.before else 0
  }

  function Milliseconds(s: Settled): (ms: real)
    ensures ms >= 0.0
  {
    var ms := (s.at - s.batch.started) * 1000.0;
    if ms > 0.0 then ms else 0.0
  }

  function Ceil(x: real): (n: int)
    ensures (n as real) - 1.0 < x <= n as real
  {
    -((-x).Floor)
  }

  const OVERFLOW: nat := 201

  function Bucket(ms: real): (i: nat)
    ensures i <= OVERFLOW
  {
    if ms <= 0.0 then 0 else if Ceil(ms) < OVERFLOW then Ceil(ms) else OVERFLOW
  }

  /** Everything recorded so far, settled batches first. */
  datatype Books = Books(done: seq<Settled>, pending: seq<Batch>, lines: nat, completedAt: Option<real>)

  const EMPTY := Books([], [], 0, None)

  /** How many batches at the head of the queue are fully read. */
  function Ripe(pending: seq<Batch>, lines: nat): (k: nat)
    ensures k <= |pending|
    ensures forall i :: 0 <= i < k ==> pending[i].span.after <= lines
    ensures k < |pending| ==> lines < pending[k].span.after
  {
    if pending == [] || lines < pending[0].span.after then 0 else 1 + Ripe(pending[1..], lines)
  }

  function SettleAll(batches: seq<Batch>, at: real): seq<Settled> {
    seq(|batches|, (i: nat) requires i < |batches| => Settled(batches[i], at))
  }

  function Observed(b: Books, lines: nat, completedAt: Option<real>): Books {
    if completedAt.None? then b.(lines := lines, completedAt := None) else
    var k := Ripe(b.pending, lines);
    Books(b.done + SettleAll(b.pending[..k], completedAt.value), b.pending[k..], lines, completedAt)
  }

  function Recorded(b: Books, batch: Batch): Books {
    Observed(b.(pending := b.pending + [batch]), b.lines, b.completedAt)
  }

  // ----- weights and percentiles ------------------------------------------------------------------

  /** A question about one latency. */
  datatype Test = Any | Below(v: real) | AtMost(v: real) | InBuckets(i: int) | InBucket(i: int)

  predicate Holds(p: Test, ms: real) {
    match p
    case Any => true
    case Below(v) => ms < v
    case AtMost(v) => ms <= v
    case InBuckets(i) => Bucket(ms) <= i
    case InBucket(i) => Bucket(ms) == i
  }

  /** Lines whose batch latency passes a test. */
  function Weight(done: seq<Settled>, p: Test): nat {
    if done == [] then 0 else
    var last := done[|done| - 1];
    Weight(done[..|done| - 1], p) + if Holds(p, Milliseconds(last)) then BatchLines(last.batch) else 0
  }

  function Samples(done: seq<Settled>): nat {
    Weight(done, Any)
  }

  function Maximum(done: seq<Settled>): real {
    if done == [] then 0.0 else
    var rest := Maximum(done[..|done| - 1]);
    var ms := Milliseconds(done[|done| - 1]);
    if ms > rest then ms else rest
  }

  /** The latency of every line, batch by batch. */
  function PerLine(done: seq<Settled>): seq<real> {
    if done == [] then [] else
    PerLine(done[..|done| - 1]) + Copies(Milliseconds(done[|done| - 1]), BatchLines(done[|done| - 1].batch))
  }

  function Copies(x: real, n: nat): seq<real> {
    if n == 0 then [] else Copies(x, n - 1) + [x]
  }

  function Count(values: seq<real>, p: Test): nat {
    if values == [] then 0 else Count(values[..|values| - 1], p) + if Holds(p, values[|values| - 1]) then 1 else 0
  }

  predicate Sorted(values: seq<real>) {
    forall i, j :: 0 <= i < j < |values| ==> values[i] <= values[j]
  }

  function Insert(x: real, values: seq<real>): (r: seq<real>)
    requires Sorted(values)
    ensures Sorted(r) && |r| == |values| + 1 && forall y :: y in r <==> y == x || y in values
  {
    if values == [] || values[|values| - 1] <= x then values + [x] else
    var r := Insert(x, values[..|values| - 1]) + [values[|values| - 1]];
    assert forall i :: 0 <= i < |values| ==> r[i] in Insert(x, values[..|values| - 1]);
    r
  }

  function Sort(values: seq<real>): (r: seq<real>)
    ensures Sorted(r) && |r| == |values|
  {
    if values == [] then [] else Insert(values[|values| - 1], Sort(values[..|values| - 1]))
  }

  /** `percentile(values, .99)`: nearest rank, with the exact product in place of the float. */
  function Rank99(n: nat): nat {
    (99 * n + 99) / 100
  }

  function Percentile99(values: seq<real>): real
    requires values != []
  {
    RankInRange(|values|);
    Sort(values)[Rank99(|values|) - 1]
  }

  lemma {:induction false} CountCat(a: seq<real>, b: seq<real>, p: Test)
    ensures Count(a + b, p) == Count(a, p) + Count(b, p)
  {
    if b == [] {
      assert a + b == a;
    } else {
      CountCat(a, b[..|b| - 1], p);
      assert (a + b)[..|a + b| - 1] == a + b[..|b| - 1];
    }
  }

  lemma {:induction false} CountCopies(x: real, n: nat, p: Test)
    ensures Count(Copies(x, n), p) == if Holds(p, x) then n else 0
  {
    if n > 0 {
      CountCopies(x, n - 1, p);
      assert Copies(x, n)[..|Copies(x, n)| - 1] == Copies(x, n - 1);
    }
  }

  lemma {:induction false} PerLineWeight(done: seq<Settled>, p: Test)
    ensures Count(PerLine(done), p) == Weight(done, p)
  {
    if done != [] {
      var last := done[|done| - 1];
      PerLineWeight(done[..|done| - 1], p);
      CountCat(PerLine(done[..|done| - 1]), Copies(Milliseconds(last), BatchLines(last.batch)), p);
      CountCopies(Milliseconds(last), BatchLines(last.batch), p);
    }
  }

  lemma {:induction false} CountInsert(x: real, values: seq<real>, p: Test)
    requires Sorted(values)
    ensures Count(Insert(x, values), p) == Count(values, p) + if Holds(p, x) then 1 else 0
  {
    if values == [] || values[|values| - 1] <= x {
      assert (values + [x])[..|values|] == values;
    } else {
      var rest := values[..|values| - 1];
      CountInsert(x, rest, p);
      assert Insert(x, values)[..|values|] == Insert(x, rest);
    }
  }

  lemma {:induction false} CountSort(values: seq<real>, p: Test)
    ensures Count(Sort(values), p) == Count(values, p)
  {
    if values != [] {
      CountSort(values[..|values| - 1], p);
      CountInsert(values[|values| - 1], Sort(values[..|values| - 1]), p);
    }
  }

  lemma {:induction false} CountWhole(values: seq<real>)
    ensures Count(values, Any) == |values|
  {
    if values != [] {
      CountWhole(values[..|values| - 1]);
    }
  }

  lemma {:induction false} CountBounds(values: seq<real>, r: nat, p: Test)
    requires r <= |values|
    ensures (forall i :: 0 <= i < r ==> Holds(p, values[i])) ==> Count(values, p) >= r
    ensures (forall i :: r <= i < |values| ==> !Holds(p, values[i])) ==> Count(values, p) <= r
  {
    if values != [] {
      var n := |values| - 1;
      if r <= n {
        CountBounds(values[..n], r, p);
      } else {
        CountBounds(values[..n], n, p);
      }
    }
  }

  lemma RankInRange(n: nat)
    requires n > 0
    ensures 1 <= Rank99(n) <= n
  {
  }

  /** The element of rank `r` of a sorted sequence, told by counts alone. */
  lemma RankCounts(values: seq<real>, r: nat)
    requires 1 <= r <= |values|
    ensures var v := Sort(values)[r - 1];
            Count(values, Below(v)) < r <= Count(values, AtMost(v))
  {
    hide Count, Sort;
    var sorted := Sort(values);
    var v := sorted[r - 1];
    CountSort(values, Below(v));
    CountSort(values, AtMost(v));
    CountBounds(sorted, r, AtMost(v));
    CountBounds(sorted, r - 1, Below(v));
  }

  lemma RankWeights(done: seq<Settled>)
    requires PerLine(done) != []
    ensures |PerLine(done)| == Samples(done)
    ensures var v := Percentile99(PerLine(done));
            var rank := Rank99(Samples(done));
            Weight(done, Below(v)) < rank <= Weight(done, AtMost(v))
  {
    hide Count, Sort, Weight, PerLine;
    var values := PerLine(done);
    PerLineWeight(done, Any);
    CountWhole(values);
    RankInRange(|values|);
    RankCounts(values, Rank99(|values|));
    var v := Percentile99(values);
    PerLineWeight(done, Below(v));
    PerLineWeight(done, AtMost(v));
  }

  lemma {:induction false} WeightMonotone(done: seq<Settled>, p: Test, q: Test)
    requires forall ms: real :: Holds(p, ms) ==> Holds(q, ms)
    ensures Weight(done, p) <= Weight(done, q)
  {
    if done != [] {
      WeightMonotone(done[..|done| - 1], p, q);
    }
  }

  lemma BucketOrder(a: real, b: real)
    ensures a <= b ==> Bucket(a) <= Bucket(b)
  {
  }

  /** The bucket scan stops exactly in the bucket of the true percentile. */
  lemma RankBucket(done: seq<Settled>, i: nat)
    requires PerLine(done) != []
    ensures Samples(done) > 0
    ensures Weight(done, InBuckets(i)) >= Rank99(Samples(done)) <==> Bucket(Percentile99(PerLine(done))) <= i
  {
    hide Count, Sort, Weight, PerLine, Rank99, Percentile99, Bucket;
    RankWeights(done);
    var v := Percentile99(PerLine(done));
    forall ms: real
      ensures ms <= v ==> Bucket(ms) <= Bucket(v)
      ensures v <= ms ==> Bucket(v) <= Bucket(ms)
    {
      BucketOrder(ms, v);
      BucketOrder(v, ms);
    }
    if Bucket(v) <= i {
      WeightMonotone(done, AtMost(v), InBuckets(i));
    } else {
      WeightMonotone(done, InBuckets(i), Below(v));
    }
  }

  lemma {:induction false} NextBucket(done: seq<Settled>, i: int)
    ensures Weight(done, InBuckets(i)) == Weight(done, InBuckets(i - 1)) + Weight(done, InBucket(i))
  {
    if done != [] {
      NextBucket(done[..|done| - 1], i);
    }
  }

  lemma {:induction false} BucketEnds(done: seq<Settled>)
    ensures Weight(done, InBuckets(-1)) == 0
    ensures Weight(done, InBuckets(OVERFLOW)) == Samples(done)
  {
    if done != [] {
      BucketEnds(done[..|done| - 1]);
    }
  }

  lemma {:induction false} MaximumCovers(done: seq<Settled>, v: real)
    requires Weight(done, Below(v)) < Samples(done)
    ensures v <= Maximum(done)
  {
    if done != [] && Weight(done[..|done| - 1], Below(v)) < Samples(done[..|done| - 1]) {
      MaximumCovers(done[..|done| - 1], v);
    }
  }

  lemma {:induction false} SamplesArePerLine(done: seq<Settled>)
    ensures Samples(done) == |PerLine(done)|
  {
    PerLineWeight(done, Any);
    CountWhole(PerLine(done));
  }

  // ----- what a report says, in seconds and lines -------------------------------------------------

  /** Lines of batches seen at most so many seconds after their write began. */
  function LinesWithin(done: seq<Settled>, seconds: real): nat {
    if done == [] then 0 else
    var s := done[|done| - 1];
    LinesWithin(done[..|done| - 1], seconds) + if s.at <= s.batch.started + seconds then BatchLines(s.batch) else 0
  }

  function AllLines(done: seq<Settled>): nat {
    if done == [] then 0 else AllLines(done[..|done| - 1]) + BatchLines(done[|done| - 1].batch)
  }

  /** Ninety-nine of a hundred lines were seen within so many seconds. */
  predicate MostWithin(done: seq<Settled>, seconds: real) {
    100 * LinesWithin(done, seconds) >= 99 * AllLines(done)
  }

  /** The maximum is the longest wait of all, in milliseconds, and none below zero. */
  predicate LongestWait(done: seq<Settled>, maxMs: real) {
    && maxMs >= 0.0
    && (forall i :: 0 <= i < |done| ==> done[i].at <= done[i].batch.started + maxMs / 1000.0)
    && (maxMs > 0.0 ==> exists i :: 0 <= i < |done| && done[i].at == done[i].batch.started + maxMs / 1000.0)
  }

  /** What a report says.  `within200Ms` means what it says; the percentile is then the first whole number
      of milliseconds within which ninety-nine of a hundred lines were seen, and otherwise the maximum. */
  predicate TruthfulReport(done: seq<Settled>, r: Report) {
    && r.samples == AllLines(done) && r.batches == |done| && LongestWait(done, r.maxMs)
    && (r.within200Ms <==> MostWithin(done, 0.2))
    && (if r.within200Ms then
          && 0.0 <= r.p99Ms <= 200.0 && r.p99Ms == r.p99Ms.Floor as real && MostWithin(done, r.p99Ms / 1000.0)
          && (r.p99Ms >= 1.0 ==> !MostWithin(done, (r.p99Ms - 1.0) / 1000.0))
        else r.p99Ms == r.maxMs)
  }

  lemma {:induction false} WithinIsWeight(done: seq<Settled>, ms: real)
    requires ms >= 0.0
    ensures LinesWithin(done, ms / 1000.0) == Weight(done, AtMost(ms))
  {
    if done != [] {
      WithinIsWeight(done[..|done| - 1], ms);
    }
  }

  lemma {:induction false} AllIsSamples(done: seq<Settled>)
    ensures AllLines(done) == Samples(done)
  {
    if done != [] {
      AllIsSamples(done[..|done| - 1]);
    }
  }

  lemma {:induction false} MaximumIsLongest(done: seq<Settled>)
    ensures LongestWait(done, Maximum(done))
  {
    if done != [] {
      var n := |done| - 1;
      MaximumIsLongest(done[..n]);
      var m := Maximum(done[..n]);
      assert forall i :: 0 <= i < n ==> done[..n][i] == done[i];
      assert Maximum(done) >= m;
      if Milliseconds(done[n]) > m {
        assert done[n].at == done[n].batch.started + Maximum(done) / 1000.0;
      } else if m > 0.0 {
        var i :| 0 <= i < n && done[..n][i].at == done[..n][i].batch.started + m / 1000.0;
        assert done[i].at == done[i].batch.started + m / 1000.0;
      }
    }
  }

  /** The nearest-rank percentile in shares of a hundred: fewer than 99 lie below it, at least 99 do not
      exceed it. */
  lemma RankShares(done: seq<Settled>)
    requires PerLine(done) != []
    ensures Samples(done) > 0
    ensures var v := Percentile99(PerLine(done));
            100 * Weight(done, Below(v)) < 99 * Samples(done) <= 100 * Weight(done, AtMost(v))
  {
    hide Weight, PerLine, Percentile99, Samples;
    RankWeights(done);
    SamplesArePerLine(done);
  }

  /** A milliseconds bound is kept by most lines exactly from the percentile on. */
  lemma MostFrom(done: seq<Settled>, ms: real)
    requires PerLine(done) != [] && ms >= 0.0
    ensures MostWithin(done, ms / 1000.0) <==> Percentile99(PerLine(done)) <= ms
  {
    hide Weight, PerLine, Percentile99, Samples, LinesWithin, AllLines;
    var v := Percentile99(PerLine(done));
    RankShares(done);
    WithinIsWeight(done, ms);
    AllIsSamples(done);
    if v <= ms {
      WeightMonotone(done, AtMost(v), AtMost(ms));
    } else {
      WeightMonotone(done, AtMost(ms), Below(v));
    }
  }

  lemma PercentileNotNegative(done: seq<Settled>)
    requires PerLine(done) != []
    ensures Percentile99(PerLine(done)) >= 0.0
  {
    hide PerLine, Percentile99, Samples;
    var v := Percentile99(PerLine(done));
    RankShares(done);
    if v < 0.0 {
      NoneNegative(done, v);
    }
  }

  lemma {:induction false} NoneNegative(done: seq<Settled>, v: real)
    requires v < 0.0
    ensures Weight(done, AtMost(v)) == 0
  {
    if done != [] {
      NoneNegative(done[..|done| - 1], v);
    }
  }

  lemma Truthful(done: seq<Settled>, r: Report)
    requires PerLine(done) != []
    requires r.samples == |PerLine(done)| && r.batches == |done| && r.maxMs == Maximum(done)
    requires var exact := Percentile99(PerLine(done));
             && r.p99Ms == (if exact <= 200.0 then Rounded(exact) else Maximum(done))
             && (r.within200Ms <==> exact <= 200.0)
    ensures TruthfulReport(done, r)
  {
    hide PerLine, Percentile99, Samples, MostWithin, LongestWait, AllLines, Maximum;
    SamplesArePerLine(done);
    AllIsSamples(done);
    MaximumIsLongest(done);
    PercentileNotNegative(done);
    MostFrom(done, 200.0);
    if r.within200Ms {
      MostFrom(done, r.p99Ms);
      if r.p99Ms >= 1.0 {
        MostFrom(done, r.p99Ms - 1.0);
      }
    }
  }

  // ----- histories --------------------------------------------------------------------------------

  datatype Op = Record(batch: Batch) | Observe(lines: nat, at: real)

  function After(ops: seq<Op>): Books {
    if ops == [] then EMPTY else
    var b := After(ops[..|ops| - 1]);
    match ops[|ops| - 1]
    case Record(batch) => Recorded(b, batch)
    case Observe(lines, at) => Observed(b, lines, Some(at))
  }

  /** The batches recorded, in order. */
  function Batches(ops: seq<Op>): seq<Batch> {
    if ops == [] then [] else
    Batches(ops[..|ops| - 1]) + if ops[|ops| - 1].Record? then [ops[|ops| - 1].batch] else []
  }

  function BatchesOf(done: seq<Settled>): seq<Batch> {
    seq(|done|, (i: nat) requires i < |done| => done[i].batch)
  }

  function Spans(batches: seq<Batch>): seq<LoadSource.Batch> {
    seq(|batches|, (i: nat) requires i < |batches| => batches[i].span)
  }

  function LinesIn(batches: seq<Batch>): nat {
    if batches == [] then 0 else LinesIn(batches[..|batches| - 1]) + BatchLines(batches[|batches| - 1])
  }

  /** Nothing is dropped, duplicated or reordered: settled batches followed by pending ones are the
      recorded ones, so settled samples and pending lines add up to the recorded lines. */
  lemma {:induction false} NothingLost(ops: seq<Op>)
    ensures BatchesOf(After(ops).done) + After(ops).pending == Batches(ops)
    ensures Samples(After(ops).done) + LinesIn(After(ops).pending) == LinesIn(Batches(ops))
  {
    InOrder(ops);
    DoneLines(After(ops).done);
    LinesInCat(BatchesOf(After(ops).done), After(ops).pending);
  }

  lemma {:induction false} InOrder(ops: seq<Op>)
    ensures BatchesOf(After(ops).done) + After(ops).pending == Batches(ops)
  {
    if ops != [] {
      InOrder(ops[..|ops| - 1]);
      var b := After(ops[..|ops| - 1]);
      match ops[|ops| - 1]
      case Record(batch) =>
        ObservedOrder(b.(pending := b.pending + [batch]), b.lines, b.completedAt);
        assert BatchesOf(b.done) + (b.pending + [batch]) == (BatchesOf(b.done) + b.pending) + [batch];
      case Observe(lines, at) =>
        ObservedOrder(b, lines, Some(at));
    }
  }

  lemma ObservedOrder(b: Books, lines: nat, completedAt: Option<real>)
    ensures var o := Observed(b, lines, completedAt);
            BatchesOf(o.done) + o.pending == BatchesOf(b.done) + b.pending
  {
    var k := Ripe(b.pending, lines);
    if completedAt.Some? {
      assert BatchesOf(b.done + SettleAll(b.pending[..k], completedAt.value)) == BatchesOf(b.done) + b.pending[..k];
      assert (BatchesOf(b.done) + b.pending[..k]) + b.pending[k..] == BatchesOf(b.done) + b.pending;
    }
  }

  lemma {:induction false} DoneLines(done: seq<Settled>)
    ensures Samples(done) == LinesIn(BatchesOf(done))
  {
    if done != [] {
      DoneLines(done[..|done| - 1]);
      assert BatchesOf(done)[..|done| - 1] == BatchesOf(done[..|done| - 1]);
    }
  }

  lemma {:induction false} LinesInCat(a: seq<Batch>, b: seq<Batch>)
    ensures LinesIn(a + b) == LinesIn(a) + LinesIn(b)
  {
    if b == [] {
      assert a + b == a;
    } else {
      LinesInCat(a, b[..|b| - 1]);
      assert (a + b)[..|a + b| - 1] == a + b[..|b| - 1];
    }
  }

  /** The tailer only moves forward. */
  predicate Forward(ops: seq<Op>) {
    forall i, j :: 0 <= i < j < |ops| && ops[i].Observe? && ops[j].Observe? ==> ops[i].lines <= ops[j].lines
  }

  /** The batches come from one source that has sent `total` lines. */
  ghost predicate FromSource(ops: seq<Op>, total: nat) {
    LoadSource.Contiguous(Spans(Batches(ops)), total)
  }

  lemma {:induction false} ContiguousOrder(batches: seq<Batch>, total: nat)
    requires LoadSource.Contiguous(Spans(batches), total)
    ensures LinesIn(batches) == total
    ensures forall i :: 0 <= i < |batches| ==> batches[i].span.after <= total
    ensures forall i, j :: 0 <= i < j < |batches| ==> batches[i].span.after < batches[j].span.after
  {
    if batches != [] {
      var n := |batches| - 1;
      assert Spans(batches)[..n] == Spans(batches[..n]);
      ContiguousOrder(batches[..n], batches[n].span.before);
      assert forall i :: 0 <= i < n ==> batches[..n][i] == batches[i];
    }
  }

  ghost predicate SettledExactly(b: Books) {
    && (forall i :: 0 <= i < |b.done| ==> b.done[i].batch.span.after <= b.lines)
    && (b.completedAt.Some? ==> forall i :: 0 <= i < |b.pending| ==> b.lines < b.pending[i].span.after)
    && (b.completedAt.None? ==> b.done == [])
  }

  predicate Ascending(pending: seq<Batch>) {
    forall i, j :: 0 <= i < j < |pending| ==> pending[i].span.after < pending[j].span.after
  }

  lemma ObserveSettles(b: Books, lines: nat, completedAt: Option<real>)
    requires Ascending(b.pending) && b.lines <= lines
    requires forall i :: 0 <= i < |b.done| ==> b.done[i].batch.span.after <= b.lines
    requires completedAt.None? ==> b.done == []
    ensures SettledExactly(Observed(b, lines, completedAt))
  {
    var k := Ripe(b.pending, lines);
    if k < |b.pending| {
      assert forall i :: k <= i < |b.pending| ==> b.pending[k].span.after <= b.pending[i].span.after;
    }
  }

  /** The watermark is the largest line count observed. */
  lemma {:induction false} Watermark(ops: seq<Op>)
    requires Forward(ops)
    ensures (exists i :: 0 <= i < |ops| && ops[i].Observe?) <==> After(ops).completedAt.Some?
    ensures forall i :: 0 <= i < |ops| && ops[i].Observe? ==> ops[i].lines <= After(ops).lines
    ensures After(ops).lines == 0 || exists i :: 0 <= i < |ops| && ops[i].Observe? && ops[i].lines == After(ops).lines
  {
    hide Ripe, SettleAll;
    if ops != [] {
      var n := |ops| - 1;
      var before := ops[..n];
      assert forall i :: 0 <= i < n ==> before[i] == ops[i];
      Watermark(before);
      var b := After(before);
      if ops[n].Observe? {
        assert After(ops).lines == ops[n].lines;
      } else {
        assert After(ops).lines == b.lines && After(ops).completedAt == b.completedAt;
      }
    }
  }

  /** Looking only at the head of the queue settles exactly the batches read completely. */
  lemma {:induction false} HeadOnlyIsExact(ops: seq<Op>, total: nat)
    requires Forward(ops) && FromSource(ops, total)
    ensures SettledExactly(After(ops))
  {
    hide Ripe, Observed, Batches, LoadSource.Contiguous;
    if ops != [] {
      var n := |ops| - 1;
      var before := ops[..n];
      assert forall i :: 0 <= i < n ==> before[i] == ops[i];
      var total' := PrefixFromSource(ops, total);
      HeadOnlyIsExact(before, total');
      Watermark(before);
      Queue(ops, total);
      var b := After(before);
      match ops[n]
      case Record(batch) => ObserveSettles(b.(pending := b.pending + [batch]), b.lines, b.completedAt);
      case Observe(lines, at) =>
        assert b.pending + [] == b.pending;
        ObserveSettles(b, lines, Some(at));
    }
  }

  /** What waits before the last operation is handled, with the batch it records. */
  lemma Queue(ops: seq<Op>, total: nat)
    requires ops != [] && FromSource(ops, total)
    ensures var b := After(ops[..|ops| - 1]);
            Ascending(b.pending + if ops[|ops| - 1].Record? then [ops[|ops| - 1].batch] else [])
  {
    var b := After(ops[..|ops| - 1]);
    var waiting := b.pending + if ops[|ops| - 1].Record? then [ops[|ops| - 1].batch] else [];
    InOrder(ops[..|ops| - 1]);
    ContiguousOrder(Batches(ops), total);
    QueueAscends(BatchesOf(b.done), waiting, Batches(ops));
  }

  lemma QueueAscends(done: seq<Batch>, pending: seq<Batch>, all: seq<Batch>)
    requires all == done + pending && Ascending(all)
    ensures Ascending(pending)
  {
    assert forall i :: 0 <= i < |pending| ==> pending[i] == all[|done| + i];
  }

  lemma PrefixFromSource(ops: seq<Op>, total: nat) returns (before: nat)
    requires ops != [] && FromSource(ops, total)
    ensures FromSource(ops[..|ops| - 1], before)
  {
    var n := |ops| - 1;
    if ops[n].Record? {
      var all := Batches(ops);
      assert Spans(all)[..|all| - 1] == Spans(Batches(ops[..n]));
      before := ops[n].batch.span.before;
    } else {
      assert Batches(ops) == Batches(ops[..n]);
      before := total;
    }
  }

  /** Once everything the source sent has been recorded and read, nothing is pending and the samples
      are the source's lines: `report` cannot fail. */
  lemma FinishedCanReport(ops: seq<Op>, seconds: nat, rate: nat)
    requires Forward(ops) && FromSource(ops, seconds * rate) && seconds * rate > 0
    requires exists i :: 0 <= i < |ops| && ops[i].Observe? && ops[i].lines >= seconds * rate
    ensures After(ops).pending == [] && Samples(After(ops).done) == seconds * rate
  {
    var total := seconds * rate;
    HeadOnlyIsExact(ops, total);
    Watermark(ops);
    NothingLost(ops);
    ContiguousOrder(Batches(ops), total);
  }

  /** A batch is settled with the time of the observation that made it complete, or, recorded only after
      that, with the time of the latest observation; nothing else changes what was settled before. */
  lemma SettledWhen(ops: seq<Op>, op: Op)
    ensures var b, b' := After(ops), After(ops + [op]);
            && b.done <= b'.done
            && (op.Observe? ==> b'.completedAt == Some(op.at) && b'.lines == op.lines)
            && (op.Record? ==> b'.completedAt == b.completedAt && b'.lines == b.lines)
            && forall i :: |b.done| <= i < |b'.done| ==>
                 b'.completedAt == Some(b'.done[i].at) && b'.done[i].batch.span.after <= b'.lines
  {
    AfterSnoc(ops, op);
  }

  // ----- the program text -------------------------------------------------------------------------

  datatype Report = Report(samples: nat, batches: nat, p99Ms: real, maxMs: real, within200Ms: bool)

  class Tracker {
    const maxPending: nat
    const buckets: array<nat>
    var pending: seq<Batch>
    var samples: nat
    var batches: nat
    var lines: nat
    var completedAt: Option<real>
    var maximumMs: real
    ghost var done: seq<Settled>

    ghost predicate Valid()
      reads this, buckets
    {
      && buckets.Length == OVERFLOW + 1
      && (forall i :: 0 <= i <= OVERFLOW ==> buckets[i] == Weight(done, InBucket(i)))
      && samples == Samples(done) && batches == |done| && maximumMs == Maximum(done)
      && |pending| <= maxPending
    }

    ghost function Now(): Books
      reads this
    {
      Books(done, pending, lines, completedAt)
    }

    constructor (maxPending: nat)
      ensures Valid() && Now() == EMPTY && this.maxPending == maxPending && fresh(buckets)
    {
      this.maxPending := maxPending;
      buckets := new nat[OVERFLOW + 1](_ => 0);
      pending, samples, batches, lines, completedAt, maximumMs, done := [], 0, 0, 0, None, 0.0, [];
    }

    method Settle(at: real)
      requires Valid() && pending != [] && pending[0].span.before <= pending[0].span.after
      modifies this, buckets
      ensures Valid() && pending == old(pending)[1..] && done == old(done) + [Settled(old(pending)[0], at)]
      ensures lines == old(lines) && completedAt == old(completedAt)
    {
      var batch := pending[0];
      pending := pending[1..];
      var ms := (at - batch.started) * 1000.0;
      ms := if ms > 0.0 then ms else 0.0;
      var i := if Ceil(ms) < OVERFLOW then Ceil(ms) else OVERFLOW;
      var count := batch.span.after - batch.span.before;
      ghost var s := Settled(batch, at);
      assert ms == Milliseconds(s) && count == BatchLines(batch) && i == Bucket(ms);
      buckets[i] := buckets[i] + count;
      samples := samples + count;
      batches := batches + 1;
      maximumMs := if ms > maximumMs then ms else maximumMs;
      done := done + [s];
      assert done[..|done| - 1] == old(done);
    }

    method ObserveAt(lines: nat, completedAt: Option<real>)
      requires Valid() && forall i :: 0 <= i < |pending| ==> pending[i].span.before <= pending[i].span.after
      modifies this, buckets
      ensures Valid() && Now() == Observed(old(Now()), lines, completedAt)
    {
      this.lines, this.completedAt := lines, completedAt;
      ghost var settled := 0;
      while pending != [] && completedAt.Some? && lines >= pending[0].span.after
        invariant Valid() && this.lines == lines && this.completedAt == completedAt
        invariant settled <= |old(pending)| && pending == old(pending)[settled..]
        invariant completedAt.None? ==> settled == 0
        invariant completedAt.Some? ==> done == old(done) + SettleAll(old(pending)[..settled], completedAt.value)
        invariant completedAt.None? ==> done == old(done)
        invariant forall i :: 0 <= i < settled ==> old(pending)[i].span.after <= lines
        decreases |pending|
      {
        Settle(completedAt.value);
        settled := settled + 1;
        assert old(pending)[..settled][..settled - 1] == old(pending)[..settled - 1];
      }
      if completedAt.Some? {
        RipeIs(old(pending), lines, settled);
      }
    }

    /** `record`: refused exactly when the queue is full, and then nothing changes. */
    method RecordBatch(batch: Batch) returns (ok: bool)
      requires Valid() && forall i :: 0 <= i < |pending| ==> pending[i].span.before <= pending[i].span.after
      requires batch.span.before < batch.span.after
      modifies this, buckets
      ensures Valid() && ok == (|old(pending)| < maxPending)
      ensures Now() == if ok then Recorded(old(Now()), batch) else old(Now())
    {
      if |pending| >= maxPending {
        return false;
      }
      pending := pending + [batch];
      ObserveAt(lines, completedAt);
      return true;
    }

    /** The loop of `report`: the bucket in which the rank is reached is found, and holds the true
        percentile. */
    method FindBucket() returns (i: nat)
      requires Valid() && PerLine(done) != []
      ensures i <= OVERFLOW && i == Bucket(Percentile99(PerLine(done)))
    {
      hide Weight, PerLine, Percentile99, Maximum, Bucket, Samples, Rank99;
      SamplesArePerLine(done);
      RankWeights(done);
      RankInRange(samples);
      BucketEnds(done);
      var rank := Rank99(samples);
      var accumulated := 0;
      i := 0;
      while true
        invariant 0 <= i <= OVERFLOW && accumulated == Weight(done, InBuckets(i - 1)) && accumulated < rank
        invariant i > 0 ==> Bucket(Percentile99(PerLine(done))) > i - 1
        decreases OVERFLOW - i
      {
        NextBucket(done, i);
        accumulated := accumulated + buckets[i];
        RankBucket(done, i);
        if accumulated >= rank {
          break;
        }
        i := i + 1;
      }
    }

    /** `report`: fails exactly when there is no sample or something is pending.  The reported value is
        the true 99th percentile rounded up to a millisecond, or the maximum beyond 200 ms. */
    method MakeReport() returns (r: Result<Report>)
      requires Valid()
      ensures r.Ok? <==> pending == [] && Samples(done) > 0
      ensures r.Ok? ==>
                && PerLine(done) != []
                && var exact := Percentile99(PerLine(done));
                   && r.value.samples == |PerLine(done)| && r.value.batches == |done| && r.value.maxMs == Maximum(done)
                   && r.value.p99Ms == (if exact <= 200.0 then Rounded(exact) else Maximum(done))
                   && exact <= r.value.p99Ms && (0.0 <= exact <= 200.0 ==> r.value.p99Ms < exact + 1.0)
                   && (r.value.within200Ms <==> exact <= 200.0)
      ensures r.Ok? ==> TruthfulReport(done, r.value)
    {
      if samples == 0 || pending != [] {
        return Err;
      }
      hide Weight, PerLine, Percentile99, Maximum, Bucket, Samples, TruthfulReport;
      SamplesArePerLine(done);
      ghost var exact := Percentile99(PerLine(done));
      RankWeights(done);
      RankInRange(samples);
      MaximumCovers(done, exact);
      var i := FindBucket();
      var p99 := if i == OVERFLOW then maximumMs else i as real;
      BucketMeans(exact, i);
      var report := Report(samples, batches, p99, maximumMs, p99 <= 200.0);
      Truthful(done, report);
      return Ok(report);
    }
  }

  // ----- one tracker between an emitter and an observer -------------------------------------------

  /** The tracker's books are those of a history in which one source has sent `sent` lines and the
      observer, moving forward, has read `seen`. */
  ghost predicate Tracks(t: Tracker, ops: seq<Op>, sent: nat, seen: nat)
    reads t, t.buckets
  {
    t.Valid() && t.Now() == After(ops) && Noted(ops, sent, seen)
  }

  ghost predicate Noted(ops: seq<Op>, sent: nat, seen: nat) {
    && Forward(ops) && FromSource(ops, sent)
    && (forall i :: 0 <= i < |ops| && ops[i].Observe? ==> ops[i].lines <= seen)
    && (seen > 0 ==> exists i :: 0 <= i < |ops| && ops[i].Observe? && ops[i].lines == seen)
  }

  lemma NothingTracked(t: Tracker)
    requires t.Valid() && t.Now() == EMPTY
    ensures Tracks(t, [], 0, 0)
  {
  }

  lemma PendingOrdered(ops: seq<Op>, sent: nat, seen: nat)
    requires Noted(ops, sent, seen)
    ensures forall i :: 0 <= i < |After(ops).pending| ==> After(ops).pending[i].span.before <= After(ops).pending[i].span.after
  {
    hide After, Forward;
    NothingLost(ops);
    var b := After(ops);
    ContiguousNonEmpty(Batches(ops), sent);
    forall i | 0 <= i < |b.pending|
      ensures b.pending[i].span.before <= b.pending[i].span.after
    {
      assert Batches(ops)[|b.done| + i] == b.pending[i];
    }
  }

  lemma {:induction false} ContiguousNonEmpty(batches: seq<Batch>, total: nat)
    requires LoadSource.Contiguous(Spans(batches), total)
    ensures forall i :: 0 <= i < |batches| ==> batches[i].span.before < batches[i].span.after
  {
    if batches != [] {
      var n := |batches| - 1;
      assert Spans(batches)[..n] == Spans(batches[..n]);
      ContiguousNonEmpty(batches[..n], batches[n].span.before);
      assert forall i :: 0 <= i < n ==> batches[..n][i] == batches[i];
    }
  }

  lemma NotedObserve(ops: seq<Op>, sent: nat, seen: nat, lines: nat, at: real)
    requires Noted(ops, sent, seen) && seen <= lines
    ensures Noted(ops + [Observe(lines, at)], sent, lines)
    ensures After(ops + [Observe(lines, at)]) == Observed(After(ops), lines, Some(at))
  {
    hide After, Observed;
    var more := ops + [Observe(lines, at)];
    assert more[..|ops|] == ops && more[|ops|].lines == lines;
    assert Batches(more) == Batches(ops);
    AfterSnoc(ops, Observe(lines, at));
  }

  lemma AfterSnoc(ops: seq<Op>, op: Op)
    ensures After(ops + [op]) ==
              if op.Record? then Recorded(After(ops), op.batch) else Observed(After(ops), op.lines, Some(op.at))
  {
    assert (ops + [op])[..|ops|] == ops;
  }

  lemma NotedRecord(ops: seq<Op>, sent: nat, seen: nat, batch: Batch)
    requires Noted(ops, sent, seen) && batch.span.before == sent < batch.span.after
    ensures Noted(ops + [Record(batch)], batch.span.after, seen)
    ensures After(ops + [Record(batch)]) == Recorded(After(ops), batch)
  {
    hide After, Recorded;
    var more := ops + [Record(batch)];
    assert more[..|ops|] == ops;
    assert Batches(more) == Batches(ops) + [batch];
    assert Spans(Batches(more))[..|Batches(ops)|] == Spans(Batches(ops));
    AfterSnoc(ops, Record(batch));
    if seen > 0 {
      var i :| 0 <= i < |ops| && ops[i].Observe? && ops[i].lines == seen;
      assert more[i] == ops[i];
    }
  }

  /** The observer reports how far it has read. */
  method NoteRead(t: Tracker, ghost ops: seq<Op>, ghost sent: nat, ghost seen: nat, lines: nat, at: real)
    returns (ghost ops': seq<Op>)
    requires Tracks(t, ops, sent, seen) && seen <= lines
    modifies t, t.buckets
    ensures Tracks(t, ops', sent, lines)
  {
    hide After, Noted, Observed;
    PendingOrdered(ops, sent, seen);
    t.ObserveAt(lines, Some(at));
    ops' := ops + [Observe(lines, at)];
    NotedObserve(ops, sent, seen, lines, at);
  }

  /** The emitter, running beside the observer: any number of further batches, in order, while the
      tracker takes them; at some point behind the last it says that it has finished. */
  method Produce(t: Tracker, ghost ops: seq<Op>, sent: nat, finished: bool, ghost seen: nat, total: nat)
    returns (ghost ops': seq<Op>, sent': nat, finished': bool)
    requires Tracks(t, ops, sent, seen) && sent <= total && (finished ==> sent == total)
    modifies t, t.buckets
    ensures Tracks(t, ops', sent', seen) && sent <= sent' <= total
    ensures (finished ==> finished') && (finished' ==> sent' == total)
  {
    hide After, Noted, Recorded;
    ops', sent', finished' := ops, sent, finished;
    var more: nat := *;
    while more > 0
      invariant Tracks(t, ops', sent', seen) && sent <= sent' <= total && (finished' ==> sent' == total)
    {
      var after: nat, started: real := *, *;
      if sent' < after <= total {
        var batch := Batch(started, LoadSource.Batch(sent', after));
        PendingOrdered(ops', sent', seen);
        var ok := t.RecordBatch(batch);
        if !ok {
          return; // the emitter raises: it never finishes
        }
        NotedRecord(ops', sent', seen, batch);
        ops', sent' := ops' + [Record(batch)], after;
      }
      more := more - 1;
    }
    var done: bool := *;
    finished' := finished' || (done && sent' == total);
  }

  /** Everything sent and read: nothing is pending and there is one sample for every line. */
  lemma NothingPending(ops: seq<Op>, total: nat)
    requires Noted(ops, total, total) && total > 0
    ensures After(ops).pending == [] && Samples(After(ops).done) == total
  {
    FinishedCanReport(ops, 1, total);
  }

  /** The report of a run in which everything was sent and read can fail only where nothing was
      expected. */
  method ReportAtEnd(t: Tracker, ghost ops: seq<Op>, ghost total: nat) returns (r: Result<Report>)
    requires Tracks(t, ops, total, total)
    ensures r.Ok? <==> total > 0
    ensures r.Ok? ==> r.value.samples == total && TruthfulReport(t.done, r.value)
  {
    hide After, Noted, PerLine, Percentile99, Samples, Weight, Maximum, Rounded, TruthfulReport;
    r := t.MakeReport();
    if total > 0 {
      NothingPending(ops, total);
      SamplesArePerLine(t.done);
    } else {
      NoSamples(ops, total);
    }
  }

  lemma NoSamples(ops: seq<Op>, seen: nat)
    requires Noted(ops, 0, seen)
    ensures Samples(After(ops).done) == 0
  {
    hide After;
    NothingLost(ops);
    ContiguousOrder(Batches(ops), 0);
  }

  function Rounded(ms: real): real {
    if ms <= 0.0 then 0.0 else Ceil(ms) as real
  }

  lemma BucketMeans(exact: real, i: nat)
    requires i == Bucket(exact)
    ensures i == OVERFLOW <==> exact > 200.0
    ensures i < OVERFLOW ==> i as real == Rounded(exact) && i <= 200
  {
  }

  lemma {:induction false} RipeIs(pending: seq<Batch>, lines: nat, k: nat)
    requires k <= |pending|
    requires forall i :: 0 <= i < k ==> pending[i].span.after <= lines
    requires k < |pending| ==> lines < pending[k].span.after
    ensures Ripe(pending, lines) == k
  {
    if k > 0 {
      RipeIs(pending[1..], lines, k - 1);
    }
  }
}
