/** The independent tail reader of one route's files: list once, then read every file to its end. */
module TailLogs {
  import opened Results
  import opened Bytes
  import opened LogLine
  import opened RollingLog

  /** One line as it is reported: route, sequence and the device's own text. */
  datatype Report = Report(route: nat, sequence: nat, raw: bytes)

  /** The regular expression `^\[…\] route=(\d{4}) seq=(\d{9}) ` on a stored line. */
  predicate ReportShape(stored: bytes): (ok: bool)
    ensures ok ==> |stored| >= STAMP_BYTES + 25 && AllDigits(stored[28..32]) && AllDigits(stored[37..46])
  {
    && |stored| >= STAMP_BYTES + 25 && StampShape(stored)
    && stored[22..28] == "route=" && AllDigits(stored[28..32])
    && stored[32] == ' ' && stored[33..37] == "seq=" && AllDigits(stored[37..46]) && stored[46] == ' '
  }

  function ParseLine(stored: bytes, hint: nat): Result<Report> {
    if !ReportShape(stored) || Value(stored[28..32]) != hint then Err
    else Ok(Report(Value(stored[28..32]), Value(stored[37..46]), Body(stored)))
  }

  ghost predicate ReportText(stored: bytes, stamp: bytes, r: bytes, q: bytes) {
    && |stamp| == STAMP_BYTES && StampShape(stamp) && |r| == 4 && AllDigits(r) && |q| == 9 && AllDigits(q)
    && stamp + "route=" + r + " seq=" + q + " " <= stored
  }

  /** A line is reported exactly when it is written with a stamp, four digits of this route and nine digits
      of a sequence number; it is then reported with that number and all its own text. */
  lemma ParseExact(stored: bytes, hint: nat)
    ensures ParseLine(stored, hint).Ok? <==> exists stamp, r, q :: ReportText(stored, stamp, r, q) && Value(r) == hint
    ensures forall stamp, r, q :: ReportText(stored, stamp, r, q) && Value(r) == hint ==>
              ParseLine(stored, hint) == Ok(Report(hint, Value(q), stored[|stamp|..] + "\n"))
  {
    hide Value;
    forall stamp, r, q | ReportText(stored, stamp, r, q) && Value(r) == hint
      ensures ParseLine(stored, hint) == Ok(Report(hint, Value(q), stored[|stamp|..] + "\n"))
    {
      ReportReads(stored, stamp, r, q);
    }
    if ParseLine(stored, hint).Ok? {
      ReportFound(stored);
    }
  }

  lemma ReportReads(stored: bytes, stamp: bytes, r: bytes, q: bytes)
    requires ReportText(stored, stamp, r, q)
    ensures ReportShape(stored) && stored[28..32] == r && stored[37..46] == q
  {
    var t := stamp + "route=" + r + " seq=" + q + " ";
    assert t == stored[..47];
    assert stored[1..5] == stamp[1..5] && stored[6..8] == stamp[6..8] && stored[9..11] == stamp[9..11];
    assert stored[12..14] == stamp[12..14] && stored[15..17] == stamp[15..17] && stored[18..20] == stamp[18..20];
    assert forall k :: 0 <= k < 22 ==> stored[k] == stamp[k];
    assert stored[22..28] == t[22..28] == "route=" && stored[28..32] == t[28..32] == r;
    assert stored[33..37] == t[33..37] == "seq=" && stored[37..46] == t[37..46] == q;
    assert stored[32] == t[32] == ' ' && stored[46] == t[46] == ' ';
  }

  lemma ReportFound(stored: bytes)
    requires ReportShape(stored)
    ensures ReportText(stored, stored[..22], stored[28..32], stored[37..46])
  {
    var stamp := stored[..22];
    assert stored[1..5] == stamp[1..5] && stored[6..8] == stamp[6..8] && stored[9..11] == stamp[9..11];
    assert stored[12..14] == stamp[12..14] && stored[15..17] == stamp[15..17] && stored[18..20] == stamp[18..20];
    assert " seq=" == [stored[32]] + stored[33..37];
    assert stored[..47] == stamp + stored[22..28] + stored[28..32] + ([stored[32]] + stored[33..37]) + stored[37..46] + [stored[46]];
  }

  function ParseAll(lines: seq<bytes>, hint: nat): Result<seq<Report>> {
    if lines == [] then Ok([]) else
    var before := ParseAll(lines[..|lines| - 1], hint);
    var last := ParseLine(lines[|lines| - 1], hint);
    if before.Err? || last.Err? then Err else Ok(before.value + [last.value])
  }

  lemma {:induction false} ParseAllCat(a: seq<bytes>, b: seq<bytes>, hint: nat)
    ensures ParseAll(a + b, hint) ==
              var r, q := ParseAll(a, hint), ParseAll(b, hint);
              if r.Err? || q.Err? then Err else Ok(r.value + q.value)
  {
    hide ParseLine;
    if b == [] {
      assert a + b == a;
      assert ParseAll(a, hint).Ok? ==> ParseAll(a, hint).value + [] == ParseAll(a, hint).value;
    } else {
      var n := |b| - 1;
      ParseAllCat(a, b[..n], hint);
      assert (a + b)[..|a + b| - 1] == a + b[..n];
      var r, q, last := ParseAll(a, hint), ParseAll(b[..n], hint), ParseLine(b[n], hint);
      if r.Ok? && q.Ok? && last.Ok? {
        assert (r.value + q.value) + [last.value] == r.value + (q.value + [last.value]);
      }
    }
  }

  /** `parse_visible_lines`, with its append loop. */
  method ParseVisibleLines(buffer: bytes, hint: nat) returns (r: Result<(seq<Report>, bytes)>)
    ensures r.Ok? <==> ParseAll(Lines(buffer), hint).Ok?
    ensures r.Ok? ==> r.value == (ParseAll(Lines(buffer), hint).value, Rest(buffer))
  {
    hide ParseLine, Split;
    var complete := Lines(buffer);
    var values: seq<Report> := [];
    var k := 0;
    while k < |complete|
      invariant k <= |complete| && ParseAll(complete[..k], hint) == Ok(values)
    {
      assert complete[..k + 1][..k] == complete[..k];
      var one := ParseLine(complete[k], hint);
      if one.Err? {
        ParseAllCat(complete[..k + 1], complete[k + 1..], hint);
        assert complete[..k + 1] + complete[k + 1..] == complete;
        return Err;
      }
      values := values + [one.value];
      k := k + 1;
    }
    assert complete[..k] == complete;
    return Ok((values, Rest(buffer)));
  }

  // ----- the directory ----------------------------------------------------------------------------

  /** The files of one route in the order of their names, those of them that have been deleted, and
      the stop flag, which remembers what had been written when it was set. */
  datatype Disk = Disk(log: Log, gone: set<nat>, stop: Option<Log>)

  /** A file is there to be listed as soon as it exists, and only sealed files are deleted. */
  ghost predicate Fine(d: Disk) {
    && d.log.listed == |d.log.files| && (forall k :: k in d.gone ==> k + 1 < |d.log.files|)
    && (d.stop.Some? ==> d.stop.value.listed == |d.stop.value.files| && Evolves(d.stop.value, d.log))
  }

  ghost predicate Follows(a: Disk, b: Disk) {
    Evolves(a.log, b.log) && a.gone <= b.gone && (a.stop.Some? ==> b.stop == a.stop)
  }

  lemma FollowsTransitive(a: Disk, b: Disk, c: Disk)
    requires Follows(a, b) && Follows(b, c)
    ensures Follows(a, c)
  {
    EvolvesTransitive(a.log, b.log, c.log);
  }

  function Offset(offsets: map<nat, nat>, k: nat): nat {
    if k in offsets then offsets[k] else 0
  }

  /** What was read, file by file, up to file `n`. */
  function Pieces(files: seq<bytes>, offsets: map<nat, nat>, n: nat): bytes
    requires n <= |files|
  {
    if n == 0 then [] else
    var off := Offset(offsets, n - 1);
    Pieces(files, offsets, n - 1) + if off <= |files[n - 1]| then files[n - 1][..off] else []
  }

  /** Where the reader stands: it has opened the first `top` files and read the ones before the last of
      them to their final end, unless they are gone. */
  ghost predicate TailState(d: Disk, top: nat, offsets: map<nat, nat>, consumed: bytes) {
    && Fine(d) && top <= |d.log.files|
    && (forall j: nat :: j >= top ==> Offset(offsets, j) == 0)
    && (forall j :: 0 <= j < top ==> Offset(offsets, j) <= |d.log.files[j]|)
    && (forall j :: 0 <= j < top - 1 ==> Settled(d, offsets, j))
    && consumed == Pieces(d.log.files, offsets, top)
  }

  /** Nothing more can be read of file `j`. */
  ghost predicate Settled(d: Disk, offsets: map<nat, nat>, j: nat) {
    j in d.gone || (j < |d.log.files| && Offset(offsets, j) == |d.log.files[j]|)
  }

  lemma {:induction false} PiecesSame(a: seq<bytes>, b: seq<bytes>, offsets: map<nat, nat>, more: map<nat, nat>, n: nat)
    requires n <= |a| && n <= |b|
    requires forall j :: 0 <= j < n ==> Offset(offsets, j) == Offset(more, j) <= |a[j]| && a[j] <= b[j]
    ensures Pieces(a, offsets, n) == Pieces(b, more, n)
  {
    if n > 0 {
      PiecesSame(a, b, offsets, more, n - 1);
      assert a[n - 1][..Offset(offsets, n - 1)] == b[n - 1][..Offset(offsets, n - 1)];
    }
  }

  /** Files not read at all add nothing. */
  lemma {:induction false} PiecesSkip(files: seq<bytes>, offsets: map<nat, nat>, top: nat, n: nat)
    requires top <= n <= |files| && forall j :: top <= j < n ==> Offset(offsets, j) == 0
    ensures Pieces(files, offsets, n) == Pieces(files, offsets, top)
  {
    if top < n {
      PiecesSkip(files, offsets, top, n - 1);
    }
  }

  /** With nothing deleted, what was read is a prefix of the stream. */
  lemma {:induction false} PiecesPrefix(files: seq<bytes>, offsets: map<nat, nat>, n: nat)
    requires n <= |files| && (forall j :: 0 <= j < n ==> Offset(offsets, j) <= |files[j]|)
    requires forall j :: 0 <= j < n - 1 ==> Offset(offsets, j) == |files[j]|
    ensures Pieces(files, offsets, n) <= Flatten(files)
    ensures n > 0 && Offset(offsets, n - 1) == |files[n - 1]| ==> Pieces(files, offsets, n) == Flatten(files[..n])
    ensures n == 0 ==> Flatten(files[..n]) == []
  {
    if n > 0 {
      PiecesPrefix(files, offsets, n - 1);
      FlattenSnoc(files[..n - 1], files[n - 1]);
      assert files[..n - 1] + [files[n - 1]] == files[..n];
      assert Pieces(files, offsets, n - 1) == Flatten(files[..n - 1]);
      UptoIsPrefix(files, n - 1, Offset(offsets, n - 1));
      assert files[n - 1][..|files[n - 1]|] == files[n - 1];
    }
  }

  lemma TailStable(a: Disk, b: Disk, top: nat, offsets: map<nat, nat>, consumed: bytes)
    requires TailState(a, top, offsets, consumed) && Follows(a, b) && Fine(b)
    ensures TailState(b, top, offsets, consumed)
  {
    PiecesSame(a.log.files, b.log.files, offsets, offsets, top);
    forall j | 0 <= j < top - 1
      ensures Settled(b, offsets, j)
    {
      StillSettled(a, b, offsets, j);
    }
  }

  class Directory {
    var disk: Disk

    constructor ()
      ensures Fine(disk)
    {
      disk := Disk(Log([], 0), {}, None);
    }

    /** The collector appends and opens new files, the archiver deletes sealed ones, and the parent may
        set the flag. */
    method Interfere()
      requires Fine(disk)
      modifies this
      ensures Fine(disk) && Follows(old(disk), disk)
    {
      var n: nat := *;
      while n > 0
        invariant Fine(disk) && Follows(old(disk), disk)
      {
        ghost var before := disk;
        var k: nat, data: bytes, kind: nat := *, *, *;
        var files := disk.log.files;
        if kind == 0 && files != [] {
          disk := disk.(log := disk.log.(files := files[|files| - 1 := files[|files| - 1] + data]));
        } else if kind == 1 && k + 1 < |files| {
          disk := disk.(gone := disk.gone + {k});
        } else if kind == 2 {
          disk := disk.(stop := if disk.stop.None? then Some(disk.log) else disk.stop);
        } else {
          disk := disk.(log := Log(files + [[]], |files| + 1));
        }
        StopKept(before, disk);
        FollowsTransitive(old(disk), before, disk);
        n := n - 1;
      }
    }

    /** `sorted(directory.rglob("*.log"))`. */
    method List() returns (paths: seq<nat>)
      requires Fine(disk)
      modifies this
      ensures Fine(disk) && Follows(old(disk), disk)
      ensures forall i :: 0 <= i < |paths| ==> paths[i] < |disk.log.files| && paths[i] !in disk.gone
      ensures forall i, j :: 0 <= i < j < |paths| ==> paths[i] < paths[j]
      ensures forall k :: 0 <= k < |disk.log.files| && k !in disk.gone ==> k in paths
    {
      Interfere();
      paths := [];
      for k := 0 to |disk.log.files|
        invariant forall i :: 0 <= i < |paths| ==> paths[i] < k && paths[i] !in disk.gone
        invariant forall i, j :: 0 <= i < j < |paths| ==> paths[i] < paths[j]
        invariant forall j :: 0 <= j < k && j !in disk.gone ==> j in paths
      {
        if k !in disk.gone {
          paths := paths + [k];
        }
      }
    }

    /** Reading from an offset to the end, or finding the file gone. */
    method Read(k: nat, offset: nat) returns (data: Option<bytes>)
      requires Fine(disk) && k < |disk.log.files| && offset <= |disk.log.files[k]|
      modifies this
      ensures Fine(disk) && Follows(old(disk), disk)
      ensures data.None? <==> k in disk.gone
      ensures data.Some? ==> offset <= |disk.log.files[k]| && data.value == disk.log.files[k][offset..]
    {
      Interfere();
      data := if k in disk.gone then None else Some(disk.log.files[k][offset..]);
    }
  }

  lemma StopKept(a: Disk, b: Disk)
    requires Fine(a) && Evolves(a.log, b.log)
    ensures a.stop.Some? ==> Evolves(a.stop.value, b.log)
  {
    if a.stop.Some? {
      EvolvesTransitive(a.stop.value, a.log, b.log);
    }
  }

  // ----- the reader -------------------------------------------------------------------------------

  /** Everything reported so far is the parse of the complete lines consumed. */
  ghost predicate Reported(consumed: bytes, remains: bytes, reports: seq<Report>, route: nat) {
    remains == Rest(consumed) && ParseAll(Lines(consumed), route) == Ok(reports)
  }

  /** Reading one listed file to its end, unless it has vanished. */
  method ReadFile(directory: Directory, k: nat, ghost top: nat, offsets: map<nat, nat>, ghost consumed: bytes)
    returns (data: bytes, offsets': map<nat, nat>, ghost top': nat)
    requires TailState(directory.disk, top, offsets, consumed) && k < |directory.disk.log.files|
    requires forall j :: 0 <= j < k ==> Settled(directory.disk, offsets, j)
    modifies directory
    ensures Follows(old(directory.disk), directory.disk)
    ensures TailState(directory.disk, top', offsets', consumed + data)
    ensures k in directory.disk.gone || Offset(offsets', k) == |directory.disk.log.files[k]|
    ensures forall j :: j != k ==> Offset(offsets', j) == Offset(offsets, j)
    ensures forall j :: 0 <= j < k ==> Settled(directory.disk, offsets', j)
  {
    hide Evolves;
    offsets', top', data := offsets, top, [];
    var offset := Offset(offsets, k);
    assert offset <= |directory.disk.log.files[k]|;
    ghost var before := directory.disk;
    var found := directory.Read(k, offset);
    TailStable(before, directory.disk, top, offsets, consumed);
    ListedStill(before, directory.disk, k);
    forall j | 0 <= j < k
      ensures Settled(directory.disk, offsets, j)
    {
      StillSettled(before, directory.disk, offsets, j);
    }
    assert consumed + [] == consumed;
    if found.Some? {
      data := found.value;
      offsets' := offsets[k := offset + |data|];
      top' := if k < top then top else k + 1;
      Extended(directory.disk, k, top, offsets, consumed, data);
    }
  }

  lemma StillSettled(a: Disk, b: Disk, offsets: map<nat, nat>, j: nat)
    requires Settled(a, offsets, j) && Fine(a) && Fine(b) && Follows(a, b) && j + 1 < |a.log.files|
    ensures Settled(b, offsets, j)
  {
  }

  /** Where the reader stands once it has read file `k` to its end. */
  lemma Extended(d: Disk, k: nat, top: nat, offsets: map<nat, nat>, consumed: bytes, data: bytes)
    requires TailState(d, top, offsets, consumed) && k < |d.log.files| && k !in d.gone
    requires forall j :: 0 <= j < k ==> Settled(d, offsets, j)
    requires Offset(offsets, k) <= |d.log.files[k]| && data == d.log.files[k][Offset(offsets, k)..]
    ensures TailState(d, if k < top then top else k + 1, offsets[k := |d.log.files[k]|], consumed + data)
  {
    var files := d.log.files;
    var more := offsets[k := |files[k]|];
    assert forall j: nat :: j != k ==> Offset(more, j) == Offset(offsets, j);
    if k + 1 < top {
      assert Settled(d, offsets, k);
      assert data == [];
      assert Offset(more, k) == Offset(offsets, k);
      PiecesSame(files, files, offsets, more, top);
    } else {
      PiecesSame(files, files, offsets, more, k);
      assert files[k][..Offset(offsets, k)] + data == files[k] == files[k][..|files[k]|];
      LastPiece(files, offsets, more, k, top, consumed, data);
    }
    forall j | 0 <= j < (if k < top then top else k + 1) - 1
      ensures Settled(d, more, j)
    {
      assert Settled(d, offsets, j);
    }
  }

  lemma LastPiece(files: seq<bytes>, offsets: map<nat, nat>, more: map<nat, nat>, k: nat, top: nat, consumed: bytes, data: bytes)
    requires k < |files| && top <= k + 1 && consumed == Pieces(files, offsets, top)
    requires forall j :: top <= j <= k ==> Offset(offsets, j) == 0
    requires Pieces(files, offsets, k) == Pieces(files, more, k)
    requires Offset(offsets, k) <= |files[k]| == Offset(more, k) && files[k][..Offset(offsets, k)] + data == files[k]
    ensures Pieces(files, more, k + 1) == consumed + data
  {
    if top == k + 1 {
      assert consumed == Pieces(files, offsets, k) + files[k][..Offset(offsets, k)];
    } else {
      PiecesSkip(files, offsets, top, k);
      assert files[k][..0] == [] && data == files[k];
    }
    assert files[k][..|files[k]|] == files[k];
  }

  /** The first lines of a text are the lines of a first part of it. */
  lemma FirstLines(s: bytes, m: nat)
    requires m <= |Lines(s)|
    ensures Terminated(Lines(s)[..m]) <= s && Lines(Terminated(Lines(s)[..m])) == Lines(s)[..m]
  {
    SplitRebuilds(s);
    var lines := Lines(s);
    TerminatedCat(lines[..m], lines[m..]);
    assert lines[..m] + lines[m..] == lines;
    assert Terminated(lines[..m]) + [] == Terminated(lines[..m]);
    SplitUnique(lines[..m], []);
  }

  lemma {:induction false} ReportCount(lines: seq<bytes>, route: nat)
    requires ParseAll(lines, route).Ok?
    ensures |ParseAll(lines, route).value| == |lines|
  {
    hide ParseLine;
    if lines != [] {
      ReportCount(lines[..|lines| - 1], route);
    }
  }

  lemma {:induction false} FirstReports(lines: seq<bytes>, route: nat, m: nat)
    requires m <= |lines| && ParseAll(lines, route).Ok?
    ensures |ParseAll(lines, route).value| == |lines| && ParseAll(lines[..m], route) == Ok(ParseAll(lines, route).value[..m])
  {
    hide ParseLine;
    ReportCount(lines, route);
    var all := ParseAll(lines, route).value;
    if m == |lines| {
      assert lines[..m] == lines && all[..m] == all;
    } else {
      FirstReports(lines[..|lines| - 1], route, m);
      assert lines[..|lines| - 1][..m] == lines[..m];
      assert all[..m] == ParseAll(lines[..|lines| - 1], route).value[..m];
    }
  }

  /** What was reported when the reader stops after `m` lines of a text. */
  lemma CutReports(whole: bytes, route: nat, all: seq<Report>, m: nat)
    requires ParseAll(Lines(whole), route) == Ok(all) && m <= |all|
    ensures |all| == |Lines(whole)|
    ensures var part := Terminated(Lines(whole)[..m]); part <= whole && ParseAll(Lines(part), route) == Ok(all[..m])
  {
    hide Split, ParseAll;
    ReportCount(Lines(whole), route);
    FirstReports(Lines(whole), route, m);
    FirstLines(whole, m);
  }

  /** Parsing what one read completes and queueing it line by line.  A line that cannot be parsed ends the
      reader before anything of this read is reported; a queue that stays full ends it between two lines. */
  method ReportLines(data: bytes, route: nat, remains: bytes, reports: seq<Report>, ghost reported: bytes)
    returns (end: End, remains': bytes, reports': seq<Report>, ghost reported': bytes)
    requires Reported(reported, remains, reports, route)
    ensures end in {Well, BadLine, QueueFull}
    ensures end.Well? ==> reported' == reported + data && Reported(reported', remains', reports', route)
    ensures end.BadLine? <==> ParseAll(Lines(reported + data), route).Err?
    ensures end.BadLine? ==> reports' == reports
    ensures end.QueueFull? ==> |reports'| < |Lines(reported + data)|
    ensures reported' <= reported + data && ParseAll(Lines(reported'), route) == Ok(reports') && reports <= reports'
  {
    hide Split, ParseLine;
    end, remains', reports', reported' := Well, remains, reports, reported;
    assert data == [] ==> reported + data == reported;
    if data == [] {
      return;
    }
    ghost var whole := reported + data;
    SplitAcross(reported, data);
    ParseAllCat(Lines(reported), Lines(remains + data), route);
    var r := ParseVisibleLines(remains + data, route);
    if r.Err? {
      end := BadLine;
      return;
    }
    var values := r.value.0;
    ghost var all := reports + values;
    for k := 0 to |values|
      invariant reports' == reports + values[..k]
    {
      var queued: bool := *;
      if !queued {
        ghost var m := |reports'|;
        CutReports(whole, route, all, m);
        assert all[..m] == reports';
        end, reported' := QueueFull, Terminated(Lines(whole)[..m]);
        return;
      }
      reports' := reports' + [values[k]];
    }
    assert values[..|values|] == values;
    remains', reported' := r.value.1, whole;
  }

  /** What holds whenever the reader ends: what it read, and that its reports are exactly the complete
      lines of a prefix of that. */
  ghost predicate Told(d: Disk, offsets: map<nat, nat>, consumed: bytes, reported: bytes, reports: seq<Report>, route: nat) {
    && Fine(d) && (forall j :: 0 <= j < |d.log.files| ==> Offset(offsets, j) <= |d.log.files[j]|)
    && (forall j: nat :: j >= |d.log.files| ==> Offset(offsets, j) == 0)
    && consumed == Pieces(d.log.files, offsets, |d.log.files|)
    && reported <= consumed && ParseAll(Lines(reported), route) == Ok(reports)
  }

  /** Everything in these files, as they were, has been read, except from deleted files. */
  ghost predicate AllRead(files: seq<bytes>, d: Disk, offsets: map<nat, nat>) {
    forall j :: 0 <= j < |files| ==> j in d.gone || |files[j]| <= Offset(offsets, j)
  }

  /** How the reader ends. */
  datatype End = Well | BadLine | QueueFull | HalfLine | PassesOver

  /** `_tail_logs`.  Whenever it ends, its reports are, in order, the complete lines of what it read, and
      it read of every file a prefix, in order.  When it ends well nothing is left over, and everything
      the last listing could show has been read, except from files deleted before they were read; if the
      flag was set before that listing, so has everything that was written before the flag. */
  method TailLogs(directory: Directory, route: nat, passes: nat)
    returns (end: End, reports: seq<Report>, offsets: map<nat, nat>, used: nat, ghost consumed: bytes, ghost reported: bytes,
             ghost listing: Disk)
    requires Fine(directory.disk)
    modifies directory
    ensures Follows(old(directory.disk), directory.disk)
    ensures Told(directory.disk, offsets, consumed, reported, reports, route)
    ensures directory.disk.gone == {} ==> consumed <= Flatten(directory.disk.log.files)
    ensures end in {Well, HalfLine} ==> reported == consumed && directory.disk.stop.Some? && (Rest(consumed) == [] <==> end.Well?)
    ensures end in {Well, HalfLine} || (end.PassesOver? && passes > 0) ==>
              Follows(listing, directory.disk) && AllRead(listing.log.files, directory.disk, offsets)
    ensures end in {Well, HalfLine} && listing.stop.Some? ==> AllRead(directory.disk.stop.value.files, directory.disk, offsets)
    ensures end.BadLine? ==> ParseAll(Lines(consumed), route).Err?
    ensures end.QueueFull? ==> |reports| < |Lines(consumed)|
    ensures end.PassesOver? ==> used == passes && reported == consumed && (passes > 0 ==> directory.disk.stop.None?)
  {
    hide Split, ParseLine, Flatten, Evolves, Pieces;
    offsets, reports, consumed, reported, used := map[], [], [], [], 0;
    var remains: bytes := [];
    ghost var top := 0;
    listing := directory.disk;
    NothingReported(route);
    NothingRead(directory.disk);
    StartFollows(directory.disk);
    while used < passes
      invariant used <= passes && Follows(old(directory.disk), directory.disk)
      invariant used > 0 ==> Follows(listing, directory.disk) && AllRead(listing.log.files, directory.disk, offsets)
      invariant used > 0 ==> directory.disk.stop.None?
      invariant TailState(directory.disk, top, offsets, consumed)
      invariant reported == consumed && Reported(reported, remains, reports, route)
    {
      used := used + 1;
      ghost var before := directory.disk;
      var paths := directory.List();
      FollowsTransitive(old(directory.disk), before, directory.disk);
      TailStable(before, directory.disk, top, offsets, consumed);
      listing := directory.disk;
      StartFollows(listing);
      for i := 0 to |paths|
        invariant Follows(listing, directory.disk) && Follows(old(directory.disk), directory.disk)
        invariant TailState(directory.disk, top, offsets, consumed)
        invariant reported == consumed && Reported(reported, remains, reports, route)
        invariant Passed(listing, directory.disk, offsets, if i < |paths| then paths[i] else |listing.log.files|)
      {
        before := directory.disk;
        ListedStill(listing, directory.disk, paths[i]);
        PassedSettled(listing, directory.disk, offsets, paths[i]);
        var data;
        data, offsets, top := ReadFile(directory, paths[i], top, offsets, consumed);
        FollowsTransitive(old(directory.disk), before, directory.disk);
        FollowsTransitive(listing, before, directory.disk);
        consumed := consumed + data;
        NextPassed(listing, directory.disk, offsets, paths, i);
        var good;
        good, remains, reports, reported := ReportLines(data, route, remains, reports, reported);
        if good != Well {
          Ends(directory.disk, top, offsets, consumed);
          return good, reports, offsets, used, consumed, reported, listing;
        }
      }
      before := directory.disk;
      PassedAll(listing, directory.disk, offsets);
      directory.Interfere(); // until the flag is looked at
      FollowsTransitive(old(directory.disk), before, directory.disk);
      FollowsTransitive(listing, before, directory.disk);
      TailStable(before, directory.disk, top, offsets, consumed);
      AllReadStays(listing.log.files, before, directory.disk, offsets);
      if directory.disk.stop.Some? {
        Ends(directory.disk, top, offsets, consumed);
        StopRead(listing, directory.disk, offsets);
        return if remains == [] then Well else HalfLine, reports, offsets, used, consumed, reported, listing;
      }
    }
    Ends(directory.disk, top, offsets, consumed);
    return PassesOver, reports, offsets, used, consumed, reported, listing;
  }

  /** In the pass over a listing everything before file `k` is done with. */
  ghost predicate Passed(listing: Disk, d: Disk, offsets: map<nat, nat>, k: nat) {
    forall j :: 0 <= j < k && j < |listing.log.files| ==>
      j in d.gone || (|listing.log.files[j]| <= Offset(offsets, j) && (j + 1 < |listing.log.files| ==> Settled(d, offsets, j)))
  }

  lemma StartFollows(d: Disk)
    requires Fine(d)
    ensures Follows(d, d)
  {
  }

  lemma NothingRead(d: Disk)
    requires Fine(d)
    ensures TailState(d, 0, map[], [])
  {
  }

  lemma ListedStill(listing: Disk, d: Disk, k: nat)
    requires Follows(listing, d) && k < |listing.log.files|
    ensures k < |d.log.files|
  {
  }

  lemma PassedSettled(listing: Disk, d: Disk, offsets: map<nat, nat>, k: nat)
    requires Passed(listing, d, offsets, k) && k < |listing.log.files|
    ensures forall j :: 0 <= j < k ==> Settled(d, offsets, j)
  {
  }

  lemma NoneBetween(paths: seq<nat>, i: nat, j: nat)
    requires i < |paths| && j in paths && (i + 1 < |paths| ==> j < paths[i + 1])
    requires forall i, j :: 0 <= i < j < |paths| ==> paths[i] < paths[j]
    ensures j <= paths[i]
  {
    var m :| 0 <= m < |paths| && paths[m] == j;
    assert m <= i;
  }

  /** Between two listed files there are only files that were already gone. */
  lemma NextPassed(listing: Disk, d: Disk, offsets: map<nat, nat>, paths: seq<nat>, i: nat)
    requires i < |paths| && Follows(listing, d) && Fine(listing) && Fine(d)
    requires forall k :: 0 <= k < |listing.log.files| && k !in listing.gone ==> k in paths
    requires forall i, j :: 0 <= i < j < |paths| ==> paths[i] < paths[j]
    requires forall i :: 0 <= i < |paths| ==> paths[i] < |listing.log.files|
    requires forall j :: 0 <= j < paths[i] ==> Settled(d, offsets, j)
    requires paths[i] in d.gone || Offset(offsets, paths[i]) == |d.log.files[paths[i]]|
    ensures Passed(listing, d, offsets, if i + 1 < |paths| then paths[i + 1] else |listing.log.files|)
  {
    var end := if i + 1 < |paths| then paths[i + 1] else |listing.log.files|;
    forall j | 0 <= j < end && j < |listing.log.files| && j !in d.gone
      ensures |listing.log.files[j]| <= Offset(offsets, j) && (j + 1 < |listing.log.files| ==> Settled(d, offsets, j))
    {
      assert j <= paths[i] by {
        NoneBetween(paths, i, j);
      }
      assert listing.log.files[j] <= d.log.files[j] && Settled(d, offsets, j);
    }
  }

  lemma PassedAll(listing: Disk, d: Disk, offsets: map<nat, nat>)
    requires Passed(listing, d, offsets, |listing.log.files|)
    ensures AllRead(listing.log.files, d, offsets)
  {
  }

  lemma Ends(d: Disk, top: nat, offsets: map<nat, nat>, consumed: bytes)
    requires TailState(d, top, offsets, consumed)
    ensures forall j :: 0 <= j < |d.log.files| ==> Offset(offsets, j) <= |d.log.files[j]|
    ensures forall j: nat :: j >= |d.log.files| ==> Offset(offsets, j) == 0
    ensures consumed == Pieces(d.log.files, offsets, |d.log.files|)
    ensures d.gone == {} ==> consumed <= Flatten(d.log.files)
  {
    PiecesSkip(d.log.files, offsets, top, |d.log.files|);
    if d.gone == {} {
      forall j | 0 <= j < top - 1
        ensures Offset(offsets, j) == |d.log.files[j]|
      {
        assert Settled(d, offsets, j);
      }
      PiecesPrefix(d.log.files, offsets, top);
    }
  }

  lemma AllReadStays(files: seq<bytes>, a: Disk, b: Disk, offsets: map<nat, nat>)
    requires AllRead(files, a, offsets) && Follows(a, b)
    ensures AllRead(files, b, offsets)
  {
  }

  /** What the flag saw is within what a later listing saw. */
  lemma StopRead(listing: Disk, d: Disk, offsets: map<nat, nat>)
    requires Fine(listing) && Follows(listing, d)
    requires AllRead(listing.log.files, d, offsets)
    ensures listing.stop.Some? ==> d.stop == listing.stop && AllRead(d.stop.value.files, d, offsets)
  {
    if listing.stop.Some? {
      var files := listing.stop.value.files;
      forall j | 0 <= j < |files| && j !in d.gone
        ensures |files[j]| <= Offset(offsets, j)
      {
        assert files[j] <= listing.log.files[j];
      }
    }
  }

  lemma NothingReported(route: nat)
    ensures Reported([], [], [], route)
  {
    SplitUnique([], []);
    assert Terminated([]) + [] == [];
  }

  // ----- the probe's own lines --------------------------------------------------------------------

  /** `line` of this probe. */
  function ProbeLine(route: nat, sequence: nat, width: nat): Result<bytes> {
    var head := LinePrefix(route, sequence);
    if width < |head| + 1 then Err else Ok(head + Repeat("x", width - |head| - 1) + "\n")
  }

  function Power10(k: nat): nat {
    if k == 0 then 1 else 10 * Power10(k - 1)
  }

  lemma {:induction false} NumeralFits(n: nat, k: nat)
    requires k >= 1
    ensures |Numeral(n)| <= k <==> n < Power10(k)
  {
    if k == 1 {
      assert Power10(1) == 10 * Power10(0);
    } else if n >= 10 {
      NumeralFits(n / 10, k - 1);
    } else {
      PowerPositive(k - 1);
    }
  }

  lemma {:induction false} PowerPositive(k: nat)
    ensures Power10(k) >= 1
  {
    if k > 0 {
      PowerPositive(k - 1);
    }
  }

  /** A probe line behind any valid stamp is reported with its route, number and text, exactly when
      the route has at most four digits and the sequence at most nine. */
  lemma ProbeLineParses(route: nat, sequence: nat, width: nat, stamp: bytes)
    requires ProbeLine(route, sequence, width).Ok? && |stamp| == STAMP_BYTES && Stamped(stamp)
    ensures var made := ProbeLine(route, sequence, width).value;
            ParseLine(stamp + made[..|made| - 1], route) ==
              if route < 10000 && sequence < 1000000000 then Ok(Report(route, sequence, made)) else Err
  {
    var made := ProbeLine(route, sequence, width).value;
    var r, q := Padded(route, 4), Padded(sequence, 9);
    var stored := stamp + made[..|made| - 1];
    NumeralFits(route, 4);
    NumeralFits(sequence, 9);
    Powers();
    StampedPrefix(stamp, stored);
    HeadOf(stored, stamp, r, q);
    assert stored[STAMP_BYTES..] + "\n" == made;
  }

  lemma Powers()
    ensures Power10(4) == 10000 && Power10(9) == 1000000000
  {
    assert Power10(1) == 10 && Power10(2) == 100 && Power10(3) == 1000 && Power10(4) == 10000;
    assert Power10(5) == 100000 && Power10(6) == 1000000 && Power10(7) == 10000000 && Power10(8) == 100000000;
  }

  lemma HeadOf(stored: bytes, stamp: bytes, r: bytes, q: bytes)
    requires |stamp| == STAMP_BYTES && Stamped(stamp) && StampShape(stored)
    requires AllDigits(r) && AllDigits(q) && |r| >= 4 && |q| >= 9
    requires stamp + ("route=" + r + " seq=" + q + " ") <= stored
    ensures ReportShape(stored) <==> |r| == 4 && |q| == 9
    ensures ReportShape(stored) ==> stored[28..32] == r && stored[37..46] == q
  {
    var head := stamp + ("route=" + r + " seq=" + q + " ");
    assert forall i :: 0 <= i < |head| ==> stored[i] == head[i];
    assert stored[22..28] == "route=";
    if |r| == 4 {
      assert stored[28..32] == r && stored[33..37] == "seq=";
      if |q| == 9 {
        assert stored[37..46] == q;
      } else {
        assert stored[46] == q[9];
      }
    } else {
      assert stored[32] == r[4];
    }
  }
}
