/** The load source's schedule: every 100 ms an exact share of the lines, numbered without a gap. */
module LoadSource {
  import opened Results
  import opened Bytes
  import opened LogLine

  /** Lines due after `ticks` tenths of a second: the source's floor division. */
  function Due(ticks: nat, rate: nat): nat {
    ticks * rate / 10
  }

  /** At every tick the lines due are the share of the second, rounded down. */
  lemma DueShare(ticks: nat, rate: nat)
    ensures 10 * Due(ticks, rate) <= ticks * rate < 10 * Due(ticks, rate) + 10
  {
  }

  lemma DueGrows(ticks: nat, rate: nat)
    ensures Due(ticks, rate) <= Due(ticks + 1, rate)
  {
  }

  lemma DueAtSeconds(seconds: nat, rate: nat)
    ensures Due(seconds * 10, rate) == seconds * rate
  {
    assert seconds * 10 * rate == seconds * rate * 10;
  }

  lemma {:induction false} DueMonotone(a: nat, b: nat, rate: nat)
    requires a <= b
    ensures Due(a, rate) <= Due(b, rate)
    decreases b - a
  {
    if a < b {
      DueGrows(a, rate);
      DueMonotone(a + 1, b, rate);
    }
  }

  /** `line` of one source: the line of a sequence number, or an error. */
  type LineMaker = nat -> Result<bytes>

  function LineOf(route: nat, width: nat): LineMaker {
    (q: nat) => Line(route, width, q)
  }

  /** Every line below `n` can be made. */
  predicate Fits(line: LineMaker, n: nat) {
    n == 0 || (line(n - 1).Ok? && Fits(line, n - 1))
  }

  lemma {:induction false} FitsBelow(line: LineMaker, n: nat, q: nat)
    requires Fits(line, n) && q <= n
    ensures Fits(line, q) && (q < n ==> line(q).Ok?)
  {
    if q < n {
      FitsBelow(line, n - 1, q);
    }
  }

  /** The lines `lo..hi`, back to back. */
  function Span(line: LineMaker, lo: nat, hi: nat): bytes
    requires lo <= hi
  {
    if lo == hi then [] else
    Span(line, lo, hi - 1) + if line(hi - 1).Ok? then line(hi - 1).value else []
  }

  lemma {:induction false} SpanCat(line: LineMaker, lo: nat, mid: nat, hi: nat)
    requires lo <= mid <= hi
    ensures Span(line, lo, hi) == Span(line, lo, mid) + Span(line, mid, hi)
  {
    if mid < hi {
      SpanCat(line, lo, mid, hi - 1);
      var last := if line(hi - 1).Ok? then line(hi - 1).value else [];
      assert (Span(line, lo, mid) + Span(line, mid, hi - 1)) + last == Span(line, lo, mid) + (Span(line, mid, hi - 1) + last);
    }
  }

  /** Everything sent has the configured width: the byte count is exact. */
  lemma {:induction false} SpanBytes(line: LineMaker, width: nat, n: nat)
    requires Fits(line, n) && forall q: nat :: line(q).Ok? ==> |line(q).value| == width
    ensures |Span(line, 0, n)| == n * width
  {
    if n > 0 {
      SpanBytes(line, width, n - 1);
      assert n * width == (n - 1) * width + width;
    }
  }

  /** A batch reported to `on_batch`: lines `before..after` were handed to the socket together. */
  datatype Batch = Batch(before: nat, after: nat)

  /** The batches cut `0..total` into consecutive non-empty pieces. */
  predicate Contiguous(batches: seq<Batch>, total: nat) {
    if batches == [] then total == 0 else
    var last := batches[|batches| - 1];
    last.before < last.after && last.after == total && Contiguous(batches[..|batches| - 1], last.before)
  }

  class Source {
    const line: LineMaker
    const rate: nat
    var started: bool
    var finished: bool
    var sourceLines: nat
    var sourceBytes: nat
    var digest: bytes // stands for the running SHA-256
    var batches: seq<Batch>
    var socket: bytes // handed to the connection
    var failed: bool

    constructor (route: nat, rate: nat, width: nat)
      ensures line == LineOf(route, width) && this.rate == rate
      ensures Sent() && !started && !finished && !failed && sourceLines == 0
    {
      this.line, this.rate := LineOf(route, width), rate;
      started, finished, sourceLines, sourceBytes, digest, batches := false, false, 0, 0, [], [];
      socket, failed := [], false;
    }

    /** What has been counted is a prefix of the route's lines and of what was handed to the connection;
        while nothing failed, that is all of it, and every counted line is in a batch. */
    ghost predicate Sent()
      reads this
    {
      && Fits(line, sourceLines)
      && digest == Span(line, 0, sourceLines)
      && sourceBytes == |digest|
      && digest <= socket
      && (!failed ==> socket == digest && Contiguous(batches, sourceLines))
    }

    method Payload(before: nat, after: nat) returns (r: Result<bytes>)
      requires before <= after && Fits(line, before)
      ensures r.Ok? <==> Fits(line, after)
      ensures r.Ok? ==> r.value == Span(line, before, after)
    {
      var payload: bytes := [];
      for q := before to after
        invariant Fits(line, q) && payload == Span(line, before, q)
      {
        var made := line(q);
        if made.Err? {
          if Fits(line, after) {
            FitsBelow(line, after, q);
          }
          return Err;
        }
        payload := payload + made.value;
      }
      return Ok(payload);
    }

    /** Write one tick's payload and report it.  The connection may fail before the lines are counted,
        and the callback after. */
    method Tick(after: nat) returns (ok: bool)
      requires Sent() && sourceLines <= after && !failed
      modifies this`digest, this`sourceLines, this`sourceBytes, this`batches, this`socket, this`failed
      ensures Sent() && (ok <==> Fits(line, after) && !failed)
      ensures sourceLines == after || (!ok && sourceLines == old(sourceLines))
      ensures failed ==> Fits(line, after) && socket == Span(line, 0, after)
    {
      var before := sourceLines;
      var payload := Payload(before, after);
      if payload.Err? {
        return false;
      }
      SpanCat(line, 0, before, after);
      socket := socket + payload.value;
      var drained: bool := *;
      if !drained {
        failed := true;
        return false;
      }
      digest := digest + payload.value;
      sourceLines := after;
      sourceBytes := sourceBytes + |payload.value|;
      var accepted: bool := *;
      if before < after && !accepted { // the callback raises
        failed := true;
        return false;
      }
      if before < after {
        var shown := batches;
        batches := batches + [Batch(before, after)];
        assert batches[..|batches| - 1] == shown;
      }
      return true;
    }

    /** `emit`: succeeds once, exactly when every line due fits its width and neither the connection nor
        the callback failed, and has then sent exactly `seconds * rate` lines; whenever it stops, the lines
        counted are those due after whole ticks, and at most one more tick was handed over. */
    method Emit(seconds: int) returns (ok: bool, ghost ticks: nat)
      requires Sent() && (!started ==> sourceLines == 0 && !failed)
      modifies this
      ensures Sent()
      ensures ok <==> !old(started) && seconds >= 0 && Fits(line, seconds * rate) && !failed
      ensures ok ==> finished && ticks == 10 * seconds && sourceLines == seconds * rate
      ensures !old(started) && seconds >= 0 ==> started && sourceLines == Due(ticks, rate) && ticks <= 10 * seconds
      ensures !old(started) && seconds >= 0 ==> 10 * sourceLines <= ticks * rate < 10 * sourceLines + 10
      ensures !old(started) && seconds >= 0 && socket != digest ==>
                failed && ticks < 10 * seconds && Fits(line, Due(ticks + 1, rate)) && socket == Span(line, 0, Due(ticks + 1, rate))
      ensures old(started) || seconds < 0 ==> sourceLines == old(sourceLines) && finished == old(finished)
    {
      ticks := 0;
      if seconds < 0 || started {
        return false, 0;
      }
      started := true;
      DueShare(0, rate);
      var usable: bool := *; // one connection, and it is there
      if !usable {
        failed := true;
        return false, 0;
      }
      var total := seconds * 10;
      DueAtSeconds(seconds, rate);
      for tick := 0 to total
        invariant started && ticks == tick && sourceLines == Due(tick, rate) && Sent() && !failed
      {
        DueGrows(tick, rate);
        DueShare(tick, rate);
        DueShare(tick + 1, rate);
        var sent := Tick(Due(tick + 1, rate));
        if failed {
          return false, if sourceLines == Due(tick + 1, rate) then tick + 1 else tick;
        }
        if !sent {
          DueMonotone(tick + 1, total, rate);
          if Fits(line, Due(total, rate)) {
            FitsBelow(line, Due(total, rate), Due(tick + 1, rate));
          }
          return false, tick;
        }
        ticks := tick + 1;
      }
      DueShare(total, rate);
      finished := true;
      ok := true;
    }
  }
}
