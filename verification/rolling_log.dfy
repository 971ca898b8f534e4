/** A log that rolls over while it is being read.

    The writer only ever promises that a file never changes again once its successor is listed.  Two
    observers list before they trust an empty read and lose nothing under any interleaving; the third
    trusts a read made before the listing, and when that is harmless is settled exactly. */
module RollingLog {
  import opened Bytes
  import opened LogLine
  import opened Results
  import BatchLatency

  /** The files of one stream in order, and how many of them the catalogue shows. */
  datatype Log = Log(files: seq<bytes>, listed: nat)

  predicate Sound(a: Log) {
    a.listed <= |a.files|
  }

  /** What may have happened between two looks: files grow at the end, new ones appear, and a file
      whose successor was listed has not changed. */
  ghost predicate Evolves(a: Log, b: Log) {
    && |a.files| <= |b.files| && a.listed <= b.listed <= |b.files|
    && (forall k :: 0 <= k < |a.files| ==> a.files[k] <= b.files[k])
    && (forall k :: 0 <= k < |a.files| && k + 1 < a.listed ==> a.files[k] == b.files[k])
  }

  lemma EvolvesTransitive(a: Log, b: Log, c: Log)
    requires Evolves(a, b) && Evolves(b, c)
    ensures Evolves(a, c)
  {
    forall k | 0 <= k < |a.files|
      ensures a.files[k] <= c.files[k] && (k + 1 < a.listed ==> a.files[k] == c.files[k])
    {
      assert a.files[k] <= b.files[k] <= c.files[k];
    }
  }

  /** The bytes before offset `off` of file `cur`. */
  function Upto(files: seq<bytes>, cur: nat, off: nat): bytes
    requires cur < |files| && off <= |files[cur]|
  {
    Flatten(files[..cur]) + files[cur][..off]
  }

  lemma UptoIsPrefix(files: seq<bytes>, cur: nat, off: nat)
    requires cur < |files| && off <= |files[cur]|
    ensures Upto(files, cur, off) <= Flatten(files)
  {
    assert files == files[..cur] + [files[cur]] + files[cur + 1..];
    FlattenCat(files[..cur] + [files[cur]], files[cur + 1..]);
    FlattenSnoc(files[..cur], files[cur]);
    assert Flatten(files) == Flatten(files[..cur]) + (files[cur][..off] + (files[cur][off..] + Flatten(files[cur + 1..])));
  }

  /** What has been read stays read: later writes cannot change it. */
  lemma UptoStable(a: Log, b: Log, cur: nat, off: nat)
    requires Evolves(a, b) && cur < a.listed <= |a.files| && off <= |a.files[cur]|
    ensures off <= |b.files[cur]| && Upto(a.files, cur, off) == Upto(b.files, cur, off)
  {
    assert a.files[..cur] == b.files[..cur];
    assert a.files[cur][..off] == b.files[cur][..off];
  }

  lemma UptoRead(files: seq<bytes>, cur: nat, off: nat, n: nat)
    requires cur < |files| && off + n <= |files[cur]|
    ensures Upto(files, cur, off + n) == Upto(files, cur, off) + files[cur][off..off + n]
  {
    assert files[cur][..off + n] == files[cur][..off] + files[cur][off..off + n];
  }

  lemma UptoNext(files: seq<bytes>, cur: nat)
    requires cur + 1 < |files|
    ensures Upto(files, cur + 1, 0) == Upto(files, cur, |files[cur]|)
  {
    assert files[..cur + 1] == files[..cur] + [files[cur]];
    FlattenSnoc(files[..cur], files[cur]);
    assert files[cur][..|files[cur]|] == files[cur];
  }

  const CONTENT_LIMIT: nat := 262144

  datatype Answer = Answer(file: nat, session: string, next: nat, data: bytes)

  /** The log service as its clients see it: anything allowed may happen before each answer. */
  class Server {
    var log: Log
    var last: Answer // the latest content answer

    constructor (initial: Log)
      requires Sound(initial)
      ensures log == initial
    {
      log, last := initial, Answer(0, "", 0, []);
    }

    method Interfere()
      requires Sound(log)
      modifies this
      ensures Sound(log) && Evolves(old(log), log) && last == old(last)
    {
      var n: nat := *;
      while n > 0
        invariant last == old(last)
        invariant Sound(log) && Evolves(old(log), log)
      {
        ghost var before := log;
        var k: nat, data: bytes, kind: nat := *, *, *;
        if kind == 0 && log.listed <= k + 1 && k < |log.files| {
          log := log.(files := log.files[k := log.files[k] + data]);
        } else if kind == 1 && log.listed < |log.files| {
          log := log.(listed := log.listed + 1);
        } else {
          log := log.(files := log.files + [[]]);
        }
        EvolvesTransitive(old(log), before, log);
        n := n - 1;
      }
    }

    /** The content endpoint.  An answer that names the file asked for and the offset behind its data
        holds bytes from the offset on, none only at the end of the file; any other may hold anything. */
    method Content(file: nat, offset: nat) returns (answer: Answer)
      requires Sound(log) && file < log.listed && offset <= |log.files[file]|
      modifies this
      ensures Sound(log) && Evolves(old(log), log) && last == answer
      ensures answer.file == file && answer.next == offset + |answer.data| ==>
                && answer.next <= |log.files[file]| && answer.data == log.files[file][offset..answer.next]
                && (answer.data == [] ==> offset == |log.files[file]|)
    {
      Interfere();
      var stray: bool, other: Answer := *, *;
      if stray && (other.file != file || other.next != offset + |other.data|) {
        last := other;
        return other;
      }
      var rest := log.files[file][offset..];
      var data := if |rest| <= CONTENT_LIMIT then rest else rest[..CONTENT_LIMIT];
      var session: string := *;
      answer := Answer(file, session, offset + |data|, data);
      last := answer;
    }

    /** The catalogue: how many files it shows. */
    method Catalogue() returns (count: nat)
      requires Sound(log)
      modifies this
      ensures Sound(log) && Evolves(old(log), log) && count == log.listed && last == old(last)
    {
      Interfere();
      count := log.listed;
    }
  }

  // ----- the latency observer: list, then read again ----------------------------------------------

  /** The lines accepted so far are those of everything consumed. */
  ghost predicate Checked(consumed: bytes, pending: bytes, lines: nat, digest: bytes, route: nat, width: nat) {
    && pending == Rest(consumed) && lines == |Lines(consumed)|
    && CompleteLines(Lines(consumed), route, width)
    && digest == Bodies(Lines(consumed))
  }

  /** The inner loop over the lines a response completes. */
  method CheckLines(ghost consumed: bytes, data: bytes, pending: bytes, lines: nat, digest: bytes, route: nat, width: nat, expected: nat)
    returns (ok: bool, pending': bytes, lines': nat, digest': bytes)
    requires Checked(consumed, pending, lines, digest, route, width) && lines <= expected
    ensures ok ==> Checked(consumed + data, pending', lines', digest', route, width) && lines <= lines' <= expected
    ensures ok <==>
              && |Rest(consumed + data)| <= width + STAMP_BYTES && |Lines(consumed + data)| <= expected
              && CompleteLines(Lines(consumed + data), route, width)
  {
    hide CompleteLine, Split;
    SplitAcross(consumed, data);
    var complete := Lines(pending + data);
    pending', lines', digest', ok := Rest(pending + data), lines, digest, false;
    if |pending'| > width + STAMP_BYTES {
      return;
    }
    ghost var all := Lines(consumed) + complete;
    var k := 0;
    while k < |complete|
      invariant k <= |complete| && lines' == lines + k <= expected
      invariant CompleteLines(all[..lines'], route, width)
      invariant digest' == Bodies(all[..lines'])
    {
      assert all[lines'] == complete[k];
      if lines' >= expected || !CompleteLine(complete[k], route, width, lines') {
        return;
      }
      digest' := digest' + Body(complete[k]);
      lines' := lines' + 1;
      assert all[..lines'][..lines' - 1] == all[..lines' - 1];
      k := k + 1;
    }
    assert all[..lines'] == all;
    ok := true;
  }

  /** The end of a pass.  Behind an empty read the catalogue may be asked; when it showed something new the
      file is read again before it is left, and it is left only for a file in the queue. */
  method Advance(server: Server, started: bool, current: nat, offset: nat, queued: seq<nat>, seen: nat, fileCount: nat,
                 empty: bool, ghost consumed: bytes)
    returns (started': bool, current': nat, offset': nat, queued': seq<nat>, seen': nat, fileCount': nat)
    requires Standing(server.log, started, current, offset, seen, consumed)
    requires queued == Range(Next(started, current), seen) && fileCount == Next(started, current)
    requires empty && started ==> offset == |server.log.files[current]|
    modifies server
    ensures Evolves(old(server.log), server.log) && server.last == old(server.last)
    ensures Standing(server.log, started', current', offset', seen', consumed)
    ensures queued' == Range(Next(started', current'), seen') && fileCount' == Next(started', current')
  {
    hide Upto, Flatten;
    started', current', offset', queued', seen', fileCount' := started, current, offset, queued, seen, fileCount;
    ghost var earlier := server.log;
    assert Evolves(earlier, earlier);
    if !empty {
      return;
    }
    var due: bool := *; // the catalogue is asked at most every 100 ms
    if due {
      var count;
      count, queued' := Discover(server, started, current, offset, seen, queued, consumed);
      seen' := count;
      if started && seen < count {
        return;
      }
      if started && queued' != [] {
        EndIsFinal(earlier, server.log, current, offset);
      }
    }
    if queued' != [] {
      Switch(server.log, started, current, offset, seen', consumed);
      RangeHead(Next(started, current), seen');
      started', current', offset', queued', fileCount' := true, queued'[0], 0, queued'[1..], fileCount + 1;
    }
  }

  /** Why an observation failed. */
  datatype Cause = BadAnswer | BadLines | Mismatch | NothingExpected | TooLate

  datatype Outcome = Failed(cause: Cause) | Verified(sourceLines: nat, fileCount: nat, report: BatchLatency.Report)

  /** Where the observer stands: everything before its offset in the stream has been consumed. */
  ghost predicate Standing(log: Log, started: bool, current: nat, offset: nat, seen: nat, consumed: bytes) {
    && Sound(log) && seen <= log.listed
    && (started ==> current < seen && offset <= |log.files[current]| && consumed == Upto(log.files, current, offset))
    && (!started ==> consumed == [])
  }

  lemma StandingStable(a: Log, b: Log, started: bool, current: nat, offset: nat, seen: nat, consumed: bytes)
    requires Standing(a, started, current, offset, seen, consumed) && Evolves(a, b) && Sound(b)
    ensures Standing(b, started, current, offset, seen, consumed)
  {
    if started {
      UptoStable(a, b, current, offset);
    }
  }

  lemma StandingIsPrefix(log: Log, started: bool, current: nat, offset: nat, seen: nat, consumed: bytes)
    requires Standing(log, started, current, offset, seen, consumed)
    ensures consumed <= Flatten(log.files)
  {
    if started {
      UptoIsPrefix(log.files, current, offset);
    }
  }

  /** The answer is about the file asked for, ends behind its data, and is of the session seen before. */
  predicate Fitting(a: Answer, current: nat, offset: nat, session: Option<string>) {
    a.file == current && a.next == offset + |a.data| && a.session != "" && (session.Some? ==> session.value == a.session)
  }

  /** One content request with the checks of its answer: file, offset, and one session throughout.  An
      empty answer is the end of the file as it is now. */
  method Poll(server: Server, started: bool, current: nat, offset: nat, session: Option<string>, ghost seen: nat,
              ghost consumed: bytes)
    returns (ok: bool, data: bytes, session': Option<string>)
    requires Standing(server.log, started, current, offset, seen, consumed)
    modifies server
    ensures Evolves(old(server.log), server.log)
    ensures Standing(server.log, started, current, offset + |data|, seen, consumed + data)
    ensures ok && started && data == [] ==> offset == |server.log.files[current]|
    ensures !started || !ok ==> data == []
    ensures ok <==> !started || Fitting(server.last, current, offset, session)
    ensures started && ok ==> data == server.last.data && session' == Some(server.last.session)
    ensures !started || !ok ==> session' == session
  {
    ok, data, session' := true, [], session;
    assert consumed + [] == consumed;
    if started {
      var answer := server.Content(current, offset);
      StandingStable(old(server.log), server.log, started, current, offset, seen, consumed);
      if answer.file != current || answer.next != offset + |answer.data| || answer.session == "" {
        return false, [], session;
      }
      if session.Some? && session.value != answer.session {
        return false, [], session;
      }
      session', data := Some(answer.session), answer.data;
      StandingStable(old(server.log), server.log, started, current, offset, seen, consumed);
      UptoRead(server.log.files, current, offset, |data|);
    }
  }

  /** One catalogue request, appending what is new to the queue. */
  method Discover(server: Server, ghost started: bool, ghost current: nat, ghost offset: nat, seen: nat, queued: seq<nat>, ghost consumed: bytes)
    returns (count: nat, queued': seq<nat>)
    requires Standing(server.log, started, current, offset, seen, consumed)
    requires queued == Range(Next(started, current), seen)
    modifies server
    ensures Evolves(old(server.log), server.log) && seen <= count
    ensures Standing(server.log, started, current, offset, count, consumed) && server.last == old(server.last)
    ensures queued' == Range(Next(started, current), count)
  {
    count := server.Catalogue();
    StandingStable(old(server.log), server.log, started, current, offset, seen, consumed);
    RangeGrows(Next(started, current), seen, count);
    queued' := queued + Range(seen, count);
  }

  function Next(started: bool, current: nat): nat {
    if started then current + 1 else 0
  }

  /** Leaving a file is safe when all of it has been read and its successor is listed. */
  lemma Switch(log: Log, started: bool, current: nat, offset: nat, seen: nat, consumed: bytes)
    requires Standing(log, started, current, offset, seen, consumed)
    requires started ==> offset == |log.files[current]|
    requires Next(started, current) < seen
    ensures Standing(log, true, Next(started, current), 0, seen, consumed)
  {
    if started {
      UptoNext(log.files, current);
    } else {
      FirstFile(log.files);
    }
  }

  /** An empty read made after the successor was discovered is the true end: whatever is written later,
      what lies before that offset is the stream through this whole file. */
  lemma EndIsFinal(a: Log, b: Log, current: nat, offset: nat)
    requires Evolves(a, b) && current + 1 < a.listed <= |a.files| && offset == |a.files[current]|
    ensures offset == |b.files[current]| && Upto(b.files, current, offset) == Flatten(b.files[..current + 1])
  {
    assert b.files[..current + 1] == b.files[..current] + [b.files[current]];
    FlattenSnoc(b.files[..current], b.files[current]);
    assert b.files[current][..offset] == b.files[current];
  }

  /** The request an answer belongs to. */
  datatype Asked = Asked(current: nat, offset: nat, session: Option<string>)

  /** What a failure says about what was consumed: it is never reported without its reason. */
  ghost predicate Excused(c: Cause, consumed: bytes, route: nat, width: nat, expected: nat, sourceDigest: bytes,
                          last: Answer, asked: Asked, emitterDone: bool, polls: nat, timeout: nat)
  {
    match c
    case BadAnswer => !Fitting(last, asked.current, asked.offset, asked.session)
    case BadLines =>
      !(|Rest(consumed)| <= width + STAMP_BYTES && |Lines(consumed)| <= expected && CompleteLines(Lines(consumed), route, width))
    case Mismatch =>
      && emitterDone && |Lines(consumed)| == expected && CompleteLines(Lines(consumed), route, width)
      && (Rest(consumed) != [] || Bodies(Lines(consumed)) != sourceDigest)
    case NothingExpected => expected == 0 && emitterDone
    case TooLate => polls == timeout && !(emitterDone && |Lines(consumed)| == expected)
  }

  /** `observe_read_latency`.  Whenever it stops, what it consumed is a prefix of the writer's stream;
      when it verifies, that prefix is exactly the expected lines and nothing more.  The emitter records
      its batches beside it; when both are through, the tracker's report cannot fail, and has one sample
      for every line. */
  method ObserveReadLatency(server: Server, tracker: BatchLatency.Tracker, route: nat, width: nat, expected: nat,
                            sourceDigest: bytes, timeout: nat)
    returns (r: Outcome, ghost consumed: bytes, polls: nat, ghost emitterDone: bool, ghost asked: Asked)
    requires Sound(server.log) && tracker.Valid() && tracker.Now() == BatchLatency.EMPTY
    modifies server, tracker, tracker.buckets
    ensures Sound(server.log) && Evolves(old(server.log), server.log)
    ensures consumed <= Flatten(server.log.files)
    ensures r.Failed? ==>
              Excused(r.cause, consumed, route, width, expected, sourceDigest, server.last, asked, emitterDone, polls, timeout)
    ensures r.Verified? ==>
              && emitterDone && r.sourceLines == expected == |Lines(consumed)| && Rest(consumed) == []
              && CompleteLines(Lines(consumed), route, width) && Bodies(Lines(consumed)) == sourceDigest
              && expected > 0 && 0 < r.fileCount <= |server.log.files|
              && consumed <= Flatten(server.log.files[..r.fileCount]) && Flatten(server.log.files[..r.fileCount - 1]) <= consumed
              && r.report.samples == expected && BatchLatency.TruthfulReport(tracker.done, r.report)
  {
    hide CompleteLine, Split, Upto, Flatten, BatchLatency.Tracks, BatchLatency.TruthfulReport;
    var started: bool, current: nat, offset: nat := false, 0, 0; // `current` is meaningless until started
    var session: Option<string> := None;
    var queued: seq<nat> := [];
    var seen: nat := 0; // the catalogue only grows at its end
    var pending: bytes, lines: nat, fileCount: nat := [], 0, 0;
    var digest: bytes := [];
    consumed := [];
    NothingRead(route, width);
    ghost var ops: seq<BatchLatency.Op> := [];
    var sent: nat := 0;
    BatchLatency.NothingTracked(tracker);
    var finished := false;
    asked, emitterDone, polls := Asked(0, 0, None), false, 0; // nothing is finished yet
    while polls < timeout
      invariant polls <= timeout && emitterDone == finished && (finished ==> sent == expected)
      invariant !(finished && lines == expected)
      invariant fileCount == Next(started, current)
      invariant Evolves(old(server.log), server.log) && lines <= expected
      invariant Checked(consumed, pending, lines, digest, route, width)
      invariant queued == Range(Next(started, current), seen)
      invariant Standing(server.log, started, current, offset, seen, consumed)
      invariant BatchLatency.Tracks(tracker, ops, sent, lines) && sent <= expected
    {
      ghost var earlier, before := server.log, consumed;
      var good, data;
      polls := polls + 1;
      asked := Asked(current, offset, session);
      good, data, session := Poll(server, started, current, offset, session, seen, consumed);
      EvolvesTransitive(old(server.log), earlier, server.log);
      if !good {
        assert consumed + data == consumed;
        StandingIsPrefix(server.log, started, current, offset, seen, consumed);
        return Failed(BadAnswer), consumed, polls, emitterDone, asked;
      }
      offset := offset + |data|;
      consumed := before + data;
      assert data == [] ==> consumed == before;
      StandingIsPrefix(server.log, started, current, offset, seen, consumed);
      if data != [] {
        var ok, at: real, checked := false, *, lines;
        ok, pending, checked, digest := CheckLines(before, data, pending, lines, digest, route, width, expected);
        if !ok {
          return Failed(BadLines), consumed, polls, emitterDone, asked;
        }
        ops := BatchLatency.NoteRead(tracker, ops, sent, lines, checked, at);
        lines := checked;
      }
      ops, sent, finished := BatchLatency.Produce(tracker, ops, sent, finished, lines, expected);
      emitterDone := finished;
      if finished && lines == expected {
        if pending != [] || digest != sourceDigest {
          return Failed(Mismatch), consumed, polls, emitterDone, asked;
        }
        var report := BatchLatency.ReportAtEnd(tracker, ops, expected);
        if report.Err? {
          return Failed(NothingExpected), consumed, polls, emitterDone, asked;
        }
        FilesRead(server.log, started, current, offset, seen, consumed);
        return Verified(lines, fileCount, report.value), consumed, polls, emitterDone, asked;
      }
      earlier := server.log;
      started, current, offset, queued, seen, fileCount :=
        Advance(server, started, current, offset, queued, seen, fileCount, data == [], consumed);
      EvolvesTransitive(old(server.log), earlier, server.log);
    }
    StandingIsPrefix(server.log, started, current, offset, seen, consumed);
    return Failed(TooLate), consumed, polls, emitterDone, asked;
  }

  /** The files counted are those something was read of, all but the last to their end. */
  lemma FilesRead(log: Log, started: bool, current: nat, offset: nat, seen: nat, consumed: bytes)
    requires Standing(log, started, current, offset, seen, consumed) && started
    ensures current + 1 <= |log.files|
    ensures consumed <= Flatten(log.files[..current + 1]) && Flatten(log.files[..current]) <= consumed
  {
    assert log.files[..current + 1] == log.files[..current] + [log.files[current]];
    FlattenSnoc(log.files[..current], log.files[current]);
  }

  function Range(lo: nat, hi: nat): (r: seq<nat>)
    ensures lo < hi ==> |r| == hi - lo && r[0] == lo
  {
    if lo >= hi then [] else seq(hi - lo, (i: nat) => lo + i)
  }

  lemma RangeGrows(lo: nat, mid: nat, hi: nat)
    requires lo <= mid <= hi
    ensures Range(lo, mid) + Range(mid, hi) == Range(lo, hi)
  {
  }

  lemma RangeHead(lo: nat, hi: nat)
    requires lo < hi
    ensures Range(lo, hi)[1..] == Range(lo + 1, hi)
  {
  }

  lemma FirstFile(files: seq<bytes>)
    requires files != []
    ensures Upto(files, 0, 0) == []
  {
    assert files[..0] == [];
  }

  lemma NothingRead(route: nat, width: nat)
    ensures Checked([], [], 0, [], route, width)
  {
    SplitUnique([], []);
    assert Terminated([]) + [] == [];
  }
}
