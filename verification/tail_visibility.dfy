/** The tail reader in front of the visibility check: what a lost byte does to the verdict. */
module TailVisibility {
  import opened Results
  import opened Bytes
  import opened LogLine
  import opened RollingLog
  import opened TailLogs
  import opened Visibility

  /** The lines of one route the aggregator was told are visible, in order. */
  function SeenReports(events: seq<Event>, route: nat): seq<TailLogs.Report> {
    if events == [] then [] else
    var last := events[|events| - 1];
    SeenReports(events[..|events| - 1], route) +
      if last.Visible? && last.key.route == route then [TailLogs.Report(route, last.key.sequence, last.raw)] else []
  }

  function Texts(reports: seq<TailLogs.Report>): bytes {
    if reports == [] then [] else Texts(reports[..|reports| - 1]) + reports[|reports| - 1].raw
  }

  lemma TextsSnoc(reports: seq<TailLogs.Report>, last: TailLogs.Report)
    ensures Texts(reports + [last]) == Texts(reports) + last.raw
  {
    assert (reports + [last])[..|reports|] == reports;
  }

  lemma {:induction false} SeenTexts(events: seq<Event>, route: nat)
    ensures Texts(SeenReports(events, route)) == RouteSeen(events, route)
  {
    if events != [] {
      var last := events[|events| - 1];
      SeenTexts(events[..|events| - 1], route);
      var before := SeenReports(events[..|events| - 1], route);
      if last.Visible? && last.key.route == route {
        TextsSnoc(before, TailLogs.Report(route, last.key.sequence, last.raw));
      } else {
        assert before + [] == before;
      }
    }
  }

  /** Every accepted line of a route moves its next sequence on by one. */
  lemma {:induction false} SeenCount(expected: map<Key, bytes>, events: seq<Event>, route: nat)
    requires Run(expected, events).Ok?
    ensures |SeenReports(events, route)| == NextOf(Run(expected, events).value.next, route)
  {
    if events != [] {
      SeenCount(expected, events[..|events| - 1], route);
    }
  }

  /** Bytes on disk for reported lines: their text and one stamp each. */
  function Stored(reports: seq<TailLogs.Report>): nat {
    |Texts(reports)| + STAMP_BYTES * |reports|
  }

  lemma {:induction false} StoredPrefix(some: seq<TailLogs.Report>, all: seq<TailLogs.Report>)
    requires some <= all
    ensures Stored(some) <= Stored(all)
  {
    if |some| < |all| {
      StoredPrefix(some, all[..|all| - 1]);
    } else {
      assert some == all;
    }
  }

  lemma {:induction false} ParsedSize(lines: seq<bytes>, route: nat)
    requires ParseAll(lines, route).Ok?
    ensures Stored(ParseAll(lines, route).value) == |Terminated(lines)|
  {
    hide ParseLine;
    if lines != [] {
      var n := |lines| - 1;
      ParsedSize(lines[..n], route);
      assert lines == lines[..n] + [lines[n]];
      TerminatedCat(lines[..n], [lines[n]]);
      assert Terminated([lines[n]]) == lines[n] + "\n" + Terminated([]);
      ParsedBody(lines[n], route);
      TextsSnoc(ParseAll(lines[..n], route).value, ParseLine(lines[n], route).value);
    }
  }

  lemma ParsedBody(line: bytes, route: nat)
    requires ParseLine(line, route).Ok?
    ensures |ParseLine(line, route).value.raw| + STAMP_BYTES == |line| + 1
  {
  }

  /** The collector's whole output for a route: every expected line behind a stamp, in order, cut into
      files anywhere. */
  ghost predicate Wrote(files: seq<bytes>, expected: map<Key, bytes>, route: nat, raws: seq<bytes>) {
    && Flatten(files) == Terminated(raws)
    && (forall k: nat :: Key(route, k) in expected <==> k < |raws|)
    && (forall k :: 0 <= k < |raws| ==> |raws[k]| >= STAMP_BYTES && Body(raws[k]) == expected[Key(route, k)])
  }

  lemma {:induction false} WrittenSize(expected: map<Key, bytes>, route: nat, raws: seq<bytes>)
    requires forall k :: 0 <= k < |raws| ==>
               Key(route, k) in expected && |raws[k]| >= STAMP_BYTES && Body(raws[k]) == expected[Key(route, k)]
    ensures |Terminated(raws)| == |RouteText(expected, route, |raws|)| + STAMP_BYTES * |raws|
  {
    if raws != [] {
      var n := |raws| - 1;
      WrittenSize(expected, route, raws[..n]);
      assert raws == raws[..n] + [raws[n]];
      TerminatedCat(raws[..n], [raws[n]]);
      assert Terminated([raws[n]]) == raws[n] + "\n" + Terminated([]);
      assert |Body(raws[n])| + STAMP_BYTES == |raws[n]| + 1;
    }
  }

  /** As many bytes as there are were read only if all of every file was. */
  lemma {:induction false} PiecesSize(files: seq<bytes>, offsets: map<nat, nat>, n: nat)
    requires n <= |files| && forall j :: 0 <= j < n ==> Offset(offsets, j) <= |files[j]|
    ensures |Pieces(files, offsets, n)| <= |Flatten(files[..n])|
    ensures |Pieces(files, offsets, n)| == |Flatten(files[..n])| ==>
              Pieces(files, offsets, n) == Flatten(files[..n]) && forall j :: 0 <= j < n ==> Offset(offsets, j) == |files[j]|
  {
    if n > 0 {
      PiecesSize(files, offsets, n - 1);
      FlattenSnoc(files[..n - 1], files[n - 1]);
      assert files[..n - 1] + [files[n - 1]] == files[..n];
      assert files[n - 1][..|files[n - 1]|] == files[n - 1];
    }
  }

  lemma TerminatedOf(s: bytes)
    ensures |Terminated(Lines(s))| <= |s|
  {
    SplitRebuilds(s);
  }

  /** A complete aggregator proves that the reader missed nothing: not one byte of the route's files is
      unread, and what was read is the collector's whole output.  `reports` is anything a run of the
      reader can have reported, and the events are any interleaving, with what was received and with
      other routes, of some first part of it. */
  lemma CompleteMeansAllRead(d: Disk, offsets: map<nat, nat>, consumed: bytes, reported: bytes, reports: seq<TailLogs.Report>,
                             route: nat, expected: map<Key, bytes>, raws: seq<bytes>, events: seq<Event>)
    requires Told(d, offsets, consumed, reported, reports, route)
    requires Wrote(d.log.files, expected, route, raws)
    requires SeenReports(events, route) <= reports
    requires Run(expected, events).Ok? && Complete(expected, Run(expected, events).value)
    ensures forall j :: 0 <= j < |d.log.files| ==> Offset(offsets, j) == |d.log.files[j]|
    ensures consumed == Flatten(d.log.files)
  {
    hide Fine, Complete, Run, Pieces, Split, ParseAll, SeenReports, Stored, Wrote;
    var files := d.log.files;
    SeenIsWritten(files, expected, route, raws, events);
    StoredPrefix(SeenReports(events, route), reports);
    ParsedSize(Lines(reported), route);
    TerminatedOf(reported);
    PiecesSize(files, offsets, |files|);
    assert files[..|files|] == files;
  }

  /** The accepted lines of a complete aggregator take exactly the bytes the collector wrote. */
  lemma SeenIsWritten(files: seq<bytes>, expected: map<Key, bytes>, route: nat, raws: seq<bytes>, events: seq<Event>)
    requires Wrote(files, expected, route, raws)
    requires Run(expected, events).Ok? && Complete(expected, Run(expected, events).value)
    ensures Stored(SeenReports(events, route)) == |Flatten(files)|
  {
    hide Complete, Run, RouteText, RouteSeen, SeenReports, Texts;
    var n := NextOf(Run(expected, events).value.next, route);
    CompleteCanReport(expected, events);
    assert Key(route, n) !in expected && Key(route, |raws|) !in expected;
    SeenTexts(events, route);
    SeenCount(expected, events, route);
    WrittenSize(expected, route, raws);
  }

  /** So a byte lost with a vanished file, or never read, keeps every interleaving from completing,
      whatever half lines were glued together over the gap. */
  lemma LossNeverCompletes(d: Disk, offsets: map<nat, nat>, consumed: bytes, reported: bytes, reports: seq<TailLogs.Report>,
                           route: nat, expected: map<Key, bytes>, raws: seq<bytes>, j: nat)
    requires Told(d, offsets, consumed, reported, reports, route)
    requires Wrote(d.log.files, expected, route, raws)
    requires j < |d.log.files| && Offset(offsets, j) < |d.log.files[j]|
    ensures forall events :: SeenReports(events, route) <= reports && Run(expected, events).Ok? ==>
              !Complete(expected, Run(expected, events).value)
  {
    hide Told, Wrote, Complete, Run, SeenReports;
    forall events | SeenReports(events, route) <= reports && Run(expected, events).Ok?
      ensures !Complete(expected, Run(expected, events).value)
    {
      if Complete(expected, Run(expected, events).value) {
        CompleteMeansAllRead(d, offsets, consumed, reported, reports, route, expected, raws, events);
      }
    }
  }

  /** What a reader told stays true of the files as the collector leaves them: a loss that happens, or
      bytes that are written, after the reader ended count as well. */
  lemma ToldLater(a: Disk, b: Disk, offsets: map<nat, nat>, consumed: bytes, reported: bytes, reports: seq<TailLogs.Report>, route: nat)
    requires Told(a, offsets, consumed, reported, reports, route) && Follows(a, b) && Fine(b)
    ensures Told(b, offsets, consumed, reported, reports, route)
  {
    hide ParseAll, Split;
    PiecesSame(a.log.files, b.log.files, offsets, offsets, |a.log.files|);
    PiecesSkip(b.log.files, offsets, |a.log.files|, |b.log.files|);
  }
}
