/** The realtime observer: one session, files in turn, frames in turn, lines across frames. */
module Realtime {
  import opened Results
  import opened Bytes
  import opened LogLine

  /** A received message.  `Bad` is everything the observer raises on without looking further: not
      JSON, a gap or error event, an unknown type, a missing field, or text that is not Base64. */
  datatype Frame =
    | Status
    | Bad
    | Data(file: nat, session: nat, offset: int, endOffset: int, size: int, payload: bytes)

  datatype State = State(
    session: Option<nat>, current: Option<nat>, completed: set<nat>, nextOffset: int,
    frames: nat, logBytes: nat, lines: nat, pending: bytes, digest: bytes)

  const START := State(None, None, {}, 0, 0, 0, 0, [], [])

  datatype Config = Config(route: nat, width: nat, expected: nat)

  /** The identity and offset checks of one data frame. */
  function Place(s: State, f: Frame): Result<State>
    requires f.Data?
  {
    if f.size != |f.payload| || f.endOffset != f.offset + |f.payload| then Err
    else if s.session.Some? && s.session.value != f.session then Err
    else if s.current.None? then
      if f.offset != 0 then Err
      else Ok(s.(session := Some(f.session), current := Some(f.file), nextOffset := f.endOffset))
    else if f.file != s.current.value then
      if f.file in s.completed || f.offset != 0 then Err
      else Ok(s.(session := Some(f.session), completed := s.completed + {s.current.value}, current := Some(f.file), nextOffset := f.endOffset))
    else if f.offset != s.nextOffset then Err
    else Ok(s.(session := Some(f.session), nextOffset := f.endOffset))
  }

  /** The lines a frame completes. */
  function CheckLines(c: Config, lines: nat, digest: bytes, raws: seq<bytes>): Result<(nat, bytes)> {
    if raws == [] then Ok((lines, digest)) else
    var r := CheckLines(c, lines, digest, raws[..|raws| - 1]);
    var last := raws[|raws| - 1];
    if r.Err? then Err
    else if r.value.0 >= c.expected || !CompleteLine(last, c.route, c.width, r.value.0) then Err
    else Ok((r.value.0 + 1, r.value.1 + Body(last)))
  }

  function Step(c: Config, s: State, f: Frame): Result<State> {
    match f
    case Status => Ok(s)
    case Bad => Err
    case Data(_, _, _, _, _, payload) =>
      var placed := Place(s, f);
      if placed.Err? then Err else
      var buffer := s.pending + payload;
      if |Rest(buffer)| > c.width + STAMP_BYTES then Err else
      var checked := CheckLines(c, s.lines, s.digest, Lines(buffer));
      if checked.Err? then Err else
      Ok(placed.value.(frames := s.frames + 1, logBytes := s.logBytes + |payload|,
                       lines := checked.value.0, pending := Rest(buffer), digest := checked.value.1))
  }

  function Run(c: Config, frames: seq<Frame>): Result<State> {
    if frames == [] then Ok(START) else
    var r := Run(c, frames[..|frames| - 1]);
    if r.Err? then Err else Step(c, r.value, frames[|frames| - 1])
  }

  // ----- what a stream of frames says -------------------------------------------------------------

  function DataOf(frames: seq<Frame>): (d: seq<Frame>)
    ensures forall i :: 0 <= i < |d| ==> d[i].Data?
  {
    if frames == [] then [] else
    DataOf(frames[..|frames| - 1]) + if frames[|frames| - 1].Data? then [frames[|frames| - 1]] else []
  }

  function Payload(frames: seq<Frame>): bytes {
    if frames == [] then [] else
    Payload(frames[..|frames| - 1]) + if frames[|frames| - 1].Data? then frames[|frames| - 1].payload else []
  }

  function Files(d: seq<Frame>): set<nat>
    requires forall i :: 0 <= i < |d| ==> d[i].Data?
  {
    set i | 0 <= i < |d| :: d[i].file
  }

  /** `f` continues the cutting `d`: the same session, and either the same file where it stopped, or
      a file not seen before from its first byte. */
  predicate Continues(d: seq<Frame>, f: Frame)
    requires f.Data? && forall i :: 0 <= i < |d| ==> d[i].Data?
  {
    && f.size == |f.payload| && f.endOffset == f.offset + |f.payload|
    && if d == [] then f.offset == 0 else
       var last := d[|d| - 1];
       && f.session == last.session
       && if f.file == last.file then f.offset == last.endOffset else f.file !in Files(d) && f.offset == 0
  }

  predicate WellCut(d: seq<Frame>)
    requires forall i :: 0 <= i < |d| ==> d[i].Data?
  {
    d == [] || (WellCut(d[..|d| - 1]) && Continues(d[..|d| - 1], d[|d| - 1]))
  }

  /** Bytes of one file delivered so far. */
  function FileBytes(d: seq<Frame>, file: nat): bytes
    requires forall i :: 0 <= i < |d| ==> d[i].Data?
  {
    if d == [] then [] else
    FileBytes(d[..|d| - 1], file) + if d[|d| - 1].file == file then d[|d| - 1].payload else []
  }

  lemma FilesGrow(d: seq<Frame>, n: nat)
    requires n <= |d| && forall i :: 0 <= i < |d| ==> d[i].Data?
    ensures Files(d[..n]) <= Files(d)
  {
    assert forall i :: 0 <= i < n ==> d[..n][i] == d[i];
  }

  lemma {:induction false} UnseenFile(d: seq<Frame>, file: nat)
    requires forall i :: 0 <= i < |d| ==> d[i].Data?
    requires file !in Files(d)
    ensures FileBytes(d, file) == []
  {
    if d != [] {
      assert d[|d| - 1].file in Files(d);
      FilesGrow(d, |d| - 1);
      UnseenFile(d[..|d| - 1], file);
    }
  }

  lemma {:induction false} CutPrefixes(d: seq<Frame>, n: nat)
    requires n <= |d| && forall i :: 0 <= i < |d| ==> d[i].Data?
    requires WellCut(d)
    ensures WellCut(d[..n])
    ensures n < |d| ==> Continues(d[..n], d[n])
  {
    if n == |d| {
      assert d[..n] == d;
    } else if n < |d| - 1 {
      CutPrefixes(d[..|d| - 1], n);
      assert d[..|d| - 1][..n] == d[..n];
    }
  }

  /** In a well-formed cutting one session is seen. */
  lemma {:induction false} OneSession(d: seq<Frame>, i: nat, j: nat)
    requires forall i :: 0 <= i < |d| ==> d[i].Data?
    requires WellCut(d) && i <= j < |d|
    ensures d[i].session == d[j].session
  {
    hide WellCut, Files;
    if i < j {
      OneSession(d, i, j - 1);
      CutPrefixes(d, j);
      assert d[..j][j - 1] == d[j - 1];
    }
  }

  /** A file once left is never seen again. */
  lemma {:induction false} NoRevisit(d: seq<Frame>, i: nat, j: nat, k: nat)
    requires forall i :: 0 <= i < |d| ==> d[i].Data?
    requires WellCut(d) && i <= j <= k < |d| && d[i].file == d[k].file
    ensures d[j].file == d[i].file
  {
    hide WellCut;
    if j < k {
      CutPrefixes(d, k);
      assert d[..k][i] == d[i] && d[..k][k - 1] == d[k - 1];
      assert d[..k][i].file in Files(d[..k]);
      NoRevisit(d, i, j, k - 1);
    }
  }

  /** Every frame starts exactly where the bytes of its file delivered before it end, from zero. */
  lemma {:induction false} Contiguous(d: seq<Frame>, i: nat)
    requires forall i :: 0 <= i < |d| ==> d[i].Data?
    requires WellCut(d) && i < |d|
    ensures d[i].offset == |FileBytes(d[..i], d[i].file)|
    ensures d[i].endOffset == |FileBytes(d[..i + 1], d[i].file)|
  {
    hide WellCut, Files;
    CutPrefixes(d, i);
    if i > 0 && d[i].file == d[i - 1].file {
      Contiguous(d, i - 1);
      assert d[..i][i - 1] == d[i - 1];
    } else if i > 0 {
      assert d[..i][i - 1] == d[i - 1];
      UnseenFile(d[..i], d[i].file);
    }
    assert d[..i + 1][..i] == d[..i] && d[..i + 1][i] == d[i];
  }

  /** After no frame is a half line longer than a whole one. */
  ghost predicate HalvesShort(c: Config, frames: seq<Frame>) {
    && |Rest(Payload(frames))| <= c.width + STAMP_BYTES
    && (frames != [] ==> HalvesShort(c, frames[..|frames| - 1]))
  }

  ghost predicate Accepted(c: Config, frames: seq<Frame>) {
    && (forall i :: 0 <= i < |frames| ==> !frames[i].Bad?)
    && WellCut(DataOf(frames))
    && HalvesShort(c, frames)
    && |Lines(Payload(frames))| <= c.expected
    && CompleteLines(Lines(Payload(frames)), c.route, c.width)
  }

  /** The state is the summary of the frames. */
  ghost predicate Summary(s: State, frames: seq<Frame>) {
    Sums(s, DataOf(frames), Payload(frames))
  }

  ghost predicate Sums(s: State, d: seq<Frame>, text: bytes)
    requires forall i :: 0 <= i < |d| ==> d[i].Data?
  {
    && (if d == [] then s.session.None? && s.current.None? && s.completed == {} else
        && s.session == Some(d[|d| - 1].session) && s.current == Some(d[|d| - 1].file)
        && s.nextOffset == d[|d| - 1].endOffset && s.completed + {d[|d| - 1].file} == Files(d)
        && d[|d| - 1].file !in s.completed)
    && s.frames == |d| && s.logBytes == |text|
    && s.pending == Rest(text) && s.lines == |Lines(text)|
    && (forall k :: 0 <= k < |Lines(text)| ==> |Lines(text)[k]| >= STAMP_BYTES)
    && s.digest == Bodies(Lines(text))
  }

  lemma {:induction false} CheckLinesExact(c: Config, seen: seq<bytes>, raws: seq<bytes>)
    requires CompleteLines(seen, c.route, c.width) && |seen| <= c.expected
    ensures CheckLines(c, |seen|, Bodies(seen), raws).Ok? <==>
              |seen + raws| <= c.expected && CompleteLines(seen + raws, c.route, c.width)
    ensures |seen + raws| <= c.expected && CompleteLines(seen + raws, c.route, c.width) ==>
              CheckLines(c, |seen|, Bodies(seen), raws) == Ok((|seen + raws|, Bodies(seen + raws)))
  {
    hide CompleteLine, Body;
    if raws == [] {
      assert seen + raws == seen;
    } else {
      var n := |raws| - 1;
      CheckLinesExact(c, seen, raws[..n]);
      var all := seen + raws;
      assert all[..|all| - 1] == seen + raws[..n];
      if CompleteLines(all, c.route, c.width) {
        assert CompleteLine(all[|all| - 1], c.route, c.width, |all| - 1);
        assert forall k :: 0 <= k < |all| - 1 ==> (seen + raws[..n])[k] == all[k];
      } else if CompleteLines(seen + raws[..n], c.route, c.width) {
        assert forall k :: 0 <= k < |all| - 1 ==> all[k] == (seen + raws[..n])[k];
      }
    }
  }

  lemma PlaceExact(s: State, d: seq<Frame>, f: Frame)
    requires f.Data? && forall i :: 0 <= i < |d| ==> d[i].Data?
    requires if d == [] then s.session.None? && s.current.None? && s.completed == {} else
             && s.session == Some(d[|d| - 1].session) && s.current == Some(d[|d| - 1].file)
             && s.nextOffset == d[|d| - 1].endOffset && s.completed + {d[|d| - 1].file} == Files(d)
             && d[|d| - 1].file !in s.completed
    ensures Place(s, f).Ok? <==> Continues(d, f)
    ensures Place(s, f).Ok? ==>
              var s' := Place(s, f).value;
              && s'.session == Some(f.session) && s'.current == Some(f.file) && s'.nextOffset == f.endOffset
              && s'.completed + {f.file} == Files(d + [f]) && f.file !in s'.completed
  {
    assert Files(d + [f]) == Files(d) + {f.file} by {
      assert forall i :: 0 <= i < |d| ==> (d + [f])[i] == d[i];
      assert (d + [f])[|d|] == f;
    }
  }

  /** Acceptance exactly, frame by frame. */
  lemma {:induction false} RunExact(c: Config, frames: seq<Frame>)
    ensures Run(c, frames).Ok? <==> Accepted(c, frames)
    ensures Run(c, frames).Ok? ==> Summary(Run(c, frames).value, frames)
  {
    if frames == [] {
      NoFrames(c);
    } else {
      var n := |frames| - 1;
      RunExact(c, frames[..n]);
      AcceptedSnoc(c, frames);
      if Accepted(c, frames[..n]) {
        StepExact(c, Run(c, frames[..n]).value, frames);
      }
    }
  }

  lemma NoFrames(c: Config)
    ensures Accepted(c, []) && Summary(START, [])
  {
    SplitUnique([], []);
    assert Terminated([]) + [] == [];
  }

  lemma AcceptedSnoc(c: Config, frames: seq<Frame>)
    requires frames != []
    ensures Accepted(c, frames) ==> Accepted(c, frames[..|frames| - 1])
  {
    hide CompleteLine, Split, WellCut;
    var n := |frames| - 1;
    assert forall i :: 0 <= i <= n ==> frames[..n][..i] == frames[..i];
    if Accepted(c, frames) {
      assert WellCut(DataOf(frames[..n])) by {
        CutPrefix(frames);
      }
      if frames[n].Data? {
        SplitAcross(Payload(frames[..n]), frames[n].payload);
        var before, all := Lines(Payload(frames[..n])), Lines(Payload(frames));
        assert forall k :: 0 <= k < |before| ==> before[k] == all[k];
      } else {
        assert Payload(frames) == Payload(frames[..n]);
      }
    }
  }

  lemma CutPrefix(frames: seq<Frame>)
    requires frames != [] && WellCut(DataOf(frames))
    ensures WellCut(DataOf(frames[..|frames| - 1]))
  {
    var n := |frames| - 1;
    if frames[n].Data? {
      assert DataOf(frames)[..|DataOf(frames)| - 1] == DataOf(frames[..n]);
    } else {
      assert DataOf(frames) == DataOf(frames[..n]);
    }
  }

  lemma StepExact(c: Config, s: State, frames: seq<Frame>)
    requires frames != [] && Accepted(c, frames[..|frames| - 1]) && Summary(s, frames[..|frames| - 1])
    ensures Step(c, s, frames[|frames| - 1]).Ok? <==> Accepted(c, frames)
    ensures Step(c, s, frames[|frames| - 1]).Ok? ==> Summary(Step(c, s, frames[|frames| - 1]).value, frames)
  {
    hide Accepted, Summary;
    var f := frames[|frames| - 1];
    if f.Data? {
      DataExact(c, s, frames);
    } else if f.Status? {
      StatusExact(c, s, frames);
    } else {
      assert !Accepted(c, frames) by {
        BadRejected(c, frames);
      }
    }
  }

  lemma BadRejected(c: Config, frames: seq<Frame>)
    requires frames != [] && frames[|frames| - 1].Bad?
    ensures !Accepted(c, frames)
  {
    hide WellCut, CompleteLines, Split;
  }

  lemma StatusExact(c: Config, s: State, frames: seq<Frame>)
    requires frames != [] && Accepted(c, frames[..|frames| - 1]) && Summary(s, frames[..|frames| - 1])
    requires frames[|frames| - 1].Status?
    ensures Accepted(c, frames) && Summary(s, frames)
  {
    hide WellCut, CompleteLines, Lines, Rest, Sums;
    var n := |frames| - 1;
    var before := frames[..n];
    StatusAddsNothing(frames);
    assert forall i :: 0 <= i < n ==> frames[i] == before[i];
  }

  lemma StatusAddsNothing(frames: seq<Frame>)
    requires frames != [] && frames[|frames| - 1].Status?
    ensures Payload(frames) == Payload(frames[..|frames| - 1]) && DataOf(frames) == DataOf(frames[..|frames| - 1])
  {
  }

  lemma DataExact(c: Config, s: State, frames: seq<Frame>)
    requires frames != [] && Accepted(c, frames[..|frames| - 1]) && Summary(s, frames[..|frames| - 1])
    requires frames[|frames| - 1].Data?
    ensures Step(c, s, frames[|frames| - 1]).Ok? <==> Accepted(c, frames)
    ensures Step(c, s, frames[|frames| - 1]).Ok? ==> Summary(Step(c, s, frames[|frames| - 1]).value, frames)
  {
    hide CompleteLine, CompleteLines, Split, Bodies, CheckLines, Continues, Place, Files, WellCut;
    var n := |frames| - 1;
    var f := frames[n];
    var before := frames[..n];
    var d := DataOf(before);
    assert DataOf(frames) == d + [f] && DataOf(frames)[..|d|] == d;
    assert WellCut(d + [f]) <==> Continues(d, f) by {
      CutSnoc(d, f);
    }
    PlaceExact(s, d, f);
    SplitAcross(Payload(before), f.payload);
    StampsLong(c, Lines(Payload(frames)));
    CheckLinesExact(c, Lines(Payload(before)), Lines(Rest(Payload(before)) + f.payload));
  }

  lemma CutSnoc(d: seq<Frame>, f: Frame)
    requires f.Data? && (forall i :: 0 <= i < |d| ==> d[i].Data?) && WellCut(d)
    ensures WellCut(d + [f]) <==> Continues(d, f)
  {
    hide Continues;
    assert (d + [f])[..|d|] == d;
  }

  lemma StampsLong(c: Config, raws: seq<bytes>)
    ensures CompleteLines(raws, c.route, c.width) ==> forall k :: 0 <= k < |raws| ==> |raws[k]| >= STAMP_BYTES
  {
    if CompleteLines(raws, c.route, c.width) {
      forall k | 0 <= k < |raws| ensures |raws[k]| >= STAMP_BYTES {
        assert CompleteLine(raws[k], c.route, c.width, k);
      }
    }
  }

  // ----- the whole observation --------------------------------------------------------------------

  datatype Report = Report(frames: nat, logBytes: nat, sourceLines: nat, sourceDigest: bytes)

  /** The loop over the lines one frame completes. */
  method CompleteRaws(c: Config, lines: nat, digest: bytes, raws: seq<bytes>) returns (r: Result<(nat, bytes)>)
    ensures r == CheckLines(c, lines, digest, raws)
  {
    hide CompleteLine, Body;
    var seen, text := lines, digest;
    for k := 0 to |raws|
      invariant CheckLines(c, lines, digest, raws[..k]) == Ok((seen, text))
    {
      assert raws[..k + 1][..k] == raws[..k];
      if seen >= c.expected || !CompleteLine(raws[k], c.route, c.width, seen) {
        CheckErrStays(c, lines, digest, raws, k + 1);
        return Err;
      }
      seen, text := seen + 1, text + Body(raws[k]);
    }
    assert raws[..|raws|] == raws;
    return Ok((seen, text));
  }

  lemma {:induction false} CheckErrStays(c: Config, lines: nat, digest: bytes, raws: seq<bytes>, k: nat)
    requires k <= |raws| && CheckLines(c, lines, digest, raws[..k]).Err?
    ensures CheckLines(c, lines, digest, raws).Err?
  {
    if k == |raws| {
      assert raws[..k] == raws;
    } else {
      assert raws[..|raws| - 1][..k] == raws[..k];
      CheckErrStays(c, lines, digest, raws[..|raws| - 1], k);
    }
  }

  function Told(c: Config, frames: seq<Frame>): Report
    requires Delivers(c, frames)
  {
    StampsLong(c, Lines(Payload(frames)));
    Report(|DataOf(frames)|, |Payload(frames)|, c.expected, Bodies(Lines(Payload(frames))))
  }

  /** One pass of the receiving loop. */
  method Receive(c: Config, s: State, f: Frame) returns (r: Result<State>)
    ensures r == Step(c, s, f)
  {
    hide Split, CheckLines, CompleteLine;
    if f.Status? {
      return Ok(s);
    }
    if f.Bad? || f.size != |f.payload| || f.endOffset != f.offset + |f.payload| {
      return Err;
    }
    var next := s;
    if s.session.None? {
      next := next.(session := Some(f.session));
    } else if f.session != s.session.value {
      return Err;
    }
    if s.current.None? {
      if f.offset != 0 {
        return Err;
      }
      next := next.(current := Some(f.file), nextOffset := 0);
    } else if f.file != s.current.value {
      if f.file in s.completed || f.offset != 0 {
        return Err;
      }
      next := next.(completed := s.completed + {s.current.value}, current := Some(f.file), nextOffset := 0);
    }
    if f.offset != next.nextOffset {
      return Err;
    }
    var buffer := s.pending + f.payload;
    next := next.(nextOffset := f.endOffset, frames := s.frames + 1, logBytes := s.logBytes + |f.payload|,
                  pending := Rest(buffer));
    if |next.pending| > c.width + STAMP_BYTES {
      return Err;
    }
    var checked := CompleteRaws(c, s.lines, s.digest, Lines(buffer));
    if checked.Err? {
      return Err;
    }
    return Ok(next.(lines := checked.value.0, digest := checked.value.1));
  }

  lemma RunStart(c: Config, frames: seq<Frame>)
    ensures Run(c, frames[..0]) == Ok(START) && START.lines == 0
  {
  }

  lemma RunNext(c: Config, frames: seq<Frame>, n: nat)
    requires n < |frames| && Run(c, frames[..n]).Ok?
    ensures Run(c, frames[..n + 1]) == Step(c, Run(c, frames[..n]).value, frames[n])
    ensures frames[..n + 1][..n] == frames[..n]
  {
    hide Step;
    assert frames[..n + 1][..n] == frames[..n];
  }

  /** Behind a rejected frame nothing delivers any more. */
  lemma NeverBehind(c: Config, frames: seq<Frame>, n: nat)
    requires n <= |frames| && Run(c, frames[..n]).Err?
    ensures forall m :: n <= m <= |frames| ==> !Delivers(c, frames[..m])
  {
    hide Run, Delivers;
    forall m | n <= m <= |frames|
      ensures !Delivers(c, frames[..m])
    {
      assert frames[..m][..n] == frames[..n];
      RejectedStays(c, frames[..m], n);
    }
  }

  lemma ToldIs(c: Config, frames: seq<Frame>)
    requires Delivers(c, frames)
    ensures Told(c, frames) == Report(|DataOf(frames)|, |Payload(frames)|, c.expected, Bodies(Lines(Payload(frames))))
  {
  }

  /** `observe_realtime` on the messages the socket delivers before the deadline. */
  method ObserveRealtime(c: Config, timeout: real, frames: seq<Frame>) returns (r: Result<Report>)
    ensures r.Ok? <==> c.width > 0 && timeout > 0.0 && exists n :: 0 <= n <= |frames| && Delivers(c, frames[..n])
    ensures r.Ok? ==> exists n :: (0 <= n <= |frames| && Delivers(c, frames[..n]) && r.value == Told(c, frames[..n]))
  {
    hide Split, Accepted, Summary, Bodies, Delivers, Run, Step, Payload, DataOf, Lines, Told;
    if c.width == 0 || timeout <= 0.0 {
      return Err;
    }
    var s := START;
    var n := 0;
    RunStart(c, frames);
    while s.lines < c.expected
      invariant n <= |frames| && Run(c, frames[..n]) == Ok(s) && s.lines <= c.expected
      invariant n > 0 ==> Run(c, frames[..n - 1]).Ok? && Run(c, frames[..n - 1]).value.lines < c.expected
      invariant forall m :: 0 <= m < n ==> !Delivers(c, frames[..m])
      decreases |frames| - n
    {
      NotYet(c, frames[..n]);
      if n == |frames| {
        return Err; // the deadline passes
      }
      RunNext(c, frames, n);
      var next := Receive(c, s, frames[n]);
      if next.Err? {
        NeverBehind(c, frames, n + 1);
        return Err;
      }
      s, n := next.value, n + 1;
      LinesBounded(c, frames[..n]);
    }
    Enough(c, frames, n);
    assert s.pending == [] ==> Told(c, frames[..n]) == Report(s.frames, s.logBytes, s.lines, s.digest) by {
      if s.pending == [] {
        ToldIs(c, frames[..n]);
      }
    }
    if s.pending != [] || s.lines != c.expected {
      return Err;
    }
    return Ok(Report(s.frames, s.logBytes, s.lines, s.digest));
  }

  /** These frames deliver the expected lines completely, and the last of them was needed. */
  ghost predicate Delivers(c: Config, frames: seq<Frame>) {
    && (forall i :: 0 <= i < |frames| ==> !frames[i].Bad?) && WellCut(DataOf(frames))
    && Rest(Payload(frames)) == [] && |Lines(Payload(frames))| == c.expected
    && CompleteLines(Lines(Payload(frames)), c.route, c.width)
    && (frames != [] ==> |Lines(Payload(frames[..|frames| - 1]))| < c.expected)
  }

  lemma {:induction false} PayloadCat(a: seq<Frame>, b: seq<Frame>)
    ensures exists rest: bytes :: Payload(a + b) == Payload(a) + rest
  {
    if b == [] {
      assert a + b == a;
      assert Payload(a + b) == Payload(a) + [];
    } else {
      PayloadCat(a, b[..|b| - 1]);
      assert (a + b)[..|a + b| - 1] == a + b[..|b| - 1];
      var rest: bytes :| Payload(a + b[..|b| - 1]) == Payload(a) + rest;
      var f := b[|b| - 1];
      var tail := rest + if f.Data? then f.payload else [];
      assert Payload(a + b) == Payload(a) + tail;
    }
  }

  /** Half a line of a stream of complete lines is never too long: the bound costs nothing. */
  lemma DeliversAccepted(c: Config, frames: seq<Frame>)
    requires Delivers(c, frames)
    ensures Accepted(c, frames)
  {
    hide CompleteLine, WellCut;
    assert frames[..|frames|] == frames;
    HalvesOf(c, frames, |frames|);
  }

  lemma {:induction false} HalvesOf(c: Config, frames: seq<Frame>, n: nat)
    requires n <= |frames|
    requires Rest(Payload(frames)) == [] && CompleteLines(Lines(Payload(frames)), c.route, c.width)
    ensures HalvesShort(c, frames[..n])
  {
    hide CompleteLines, Split;
    PayloadCat(frames[..n], frames[n..]);
    assert frames[..n] + frames[n..] == frames;
    var rest: bytes :| Payload(frames) == Payload(frames[..n]) + rest;
    HalfLine(c, Payload(frames[..n]), rest);
    if n > 0 {
      HalvesOf(c, frames, n - 1);
      assert frames[..n][..n - 1] == frames[..n - 1];
    }
  }

  lemma HalfLine(c: Config, a: bytes, b: bytes)
    requires Rest(a + b) == [] && CompleteLines(Lines(a + b), c.route, c.width)
    ensures |Rest(a)| <= c.width + STAMP_BYTES
    ensures |Lines(a)| <= |Lines(a + b)|
  {
    hide CompleteLine;
    SplitAcross(a, b);
    SplitRebuilds(a);
    var whole := Rest(a) + b;
    SplitRebuilds(whole);
    if Lines(whole) == [] {
      assert Terminated([]) + Rest(whole) == Rest(whole);
    } else {
      var first := Lines(whole)[0];
      assert Lines(a + b)[|Lines(a)|] == first;
      CompleteWidth(first, c, |Lines(a)|);
      assert forall k :: 0 <= k < |Rest(a)| ==> whole[k] == Rest(a)[k];
      assert Newline(whole) >= |Rest(a)|;
    }
  }

  lemma CompleteWidth(raw: bytes, c: Config, k: nat)
    requires CompleteLine(raw, c.route, c.width, k)
    ensures |raw| + 1 == c.width + STAMP_BYTES
  {
  }

  lemma RejectedStays(c: Config, frames: seq<Frame>, k: nat)
    requires k <= |frames| && Run(c, frames[..k]).Err?
    ensures !Delivers(c, frames)
  {
    hide Accepted, Delivers;
    ErrStays(c, frames, k);
    RunExact(c, frames);
    if Delivers(c, frames) {
      DeliversAccepted(c, frames);
    }
  }

  lemma {:induction false} ErrStays(c: Config, frames: seq<Frame>, k: nat)
    requires k <= |frames| && Run(c, frames[..k]).Err?
    ensures Run(c, frames).Err?
  {
    if k == |frames| {
      assert frames[..k] == frames;
    } else {
      assert frames[..|frames| - 1][..k] == frames[..k];
      ErrStays(c, frames[..|frames| - 1], k);
    }
  }

  lemma LinesBounded(c: Config, frames: seq<Frame>)
    requires Run(c, frames).Ok?
    ensures Run(c, frames).value.lines <= c.expected
  {
    RunExact(c, frames);
  }

  lemma NotYet(c: Config, frames: seq<Frame>)
    requires Run(c, frames).Ok? && Run(c, frames).value.lines < c.expected
    ensures !Delivers(c, frames)
  {
    RunExact(c, frames);
  }

  /** Once the expected lines are complete nothing later can make a difference. */
  lemma Enough(c: Config, frames: seq<Frame>, n: nat)
    requires n <= |frames| && Run(c, frames[..n]).Ok? && Run(c, frames[..n]).value.lines == c.expected
    requires n > 0 ==> Run(c, frames[..n - 1]).Ok? && Run(c, frames[..n - 1]).value.lines < c.expected
    ensures var s := Run(c, frames[..n]).value;
            && (Delivers(c, frames[..n]) <==> s.pending == [])
            && s.frames == |DataOf(frames[..n])| && s.logBytes == |Payload(frames[..n])|
            && (s.pending == [] ==> s.digest == Bodies(Lines(Payload(frames[..n]))))
    ensures forall m :: n < m <= |frames| ==> !Delivers(c, frames[..m])
  {
    hide CompleteLine, WellCut, Split, Bodies;
    RunExact(c, frames[..n]);
    if n > 0 {
      RunExact(c, frames[..n - 1]);
      assert frames[..n][..n - 1] == frames[..n - 1];
    }
    forall m | n < m <= |frames|
      ensures !Delivers(c, frames[..m])
    {
      TooMany(c, frames, n, m);
    }
  }

  /** Once as many lines as expected have come, more frames never deliver. */
  lemma TooMany(c: Config, frames: seq<Frame>, n: nat, m: nat)
    requires n < m <= |frames| && Run(c, frames[..n]).Ok? && Run(c, frames[..n]).value.lines == c.expected
    ensures !Delivers(c, frames[..m])
  {
    hide CompleteLine, WellCut, Split, Bodies;
    RunExact(c, frames[..n]);
    assert frames[..m][..m - 1] == frames[..m - 1] && frames[..m - 1][..n] == frames[..n];
    LinesGrow(frames[..m - 1], n);
  }

  lemma LinesGrow(frames: seq<Frame>, n: nat)
    requires n <= |frames|
    ensures |Lines(Payload(frames[..n]))| <= |Lines(Payload(frames))|
  {
    hide Split;
    PayloadCat(frames[..n], frames[n..]);
    assert frames[..n] + frames[n..] == frames;
    var rest: bytes :| Payload(frames) == Payload(frames[..n]) + rest;
    SplitAcross(Payload(frames[..n]), rest);
  }

  // ----- completeness -----------------------------------------------------------------------------

  /** Emitted line `k` behind its stamp, as one raw line. */
  predicate Emitted(c: Config, stamps: seq<bytes>, raws: seq<bytes>) {
    && |raws| == |stamps| == c.expected
    && forall k :: 0 <= k < |raws| ==>
         |stamps[k]| == STAMP_BYTES && Stamped(stamps[k]) && Line(c.route, c.width, k).Ok?
         && raws[k] == stamps[k] + Line(c.route, c.width, k).value[..c.width - 1]
  }

  /** Every well-formed cutting of the stamped stream is accepted, wherever its frames break lines. */
  lemma EmittedObserved(c: Config, stamps: seq<bytes>, raws: seq<bytes>, frames: seq<Frame>)
    requires Emitted(c, stamps, raws)
    requires (forall i :: 0 <= i < |frames| ==> !frames[i].Bad?) && WellCut(DataOf(frames))
    requires Payload(frames) == Terminated(raws)
    ensures exists n :: 0 <= n <= |frames| && Delivers(c, frames[..n])
  {
    hide Split, CompleteLine, WellCut, Delivers;
    forall k | 0 <= k < |raws|
      ensures CompleteLine(raws[k], c.route, c.width, k) && '\n' !in raws[k]
    {
      EmittedComplete(c, stamps, raws, k);
    }
    assert Terminated(raws) + [] == Terminated(raws);
    SplitUnique(raws, []);
    FirstComplete(c, frames);
  }

  lemma EmittedComplete(c: Config, stamps: seq<bytes>, raws: seq<bytes>, k: nat)
    requires Emitted(c, stamps, raws) && k < |raws|
    ensures CompleteLine(raws[k], c.route, c.width, k) && '\n' !in raws[k]
  {
    LineReadsBack(c.route, c.width, k, stamps[k]);
    StampUnbroken(stamps[k]);
    var line := Line(c.route, c.width, k).value;
    assert forall i :: 0 <= i < c.width - 1 ==> line[i] != '\n';
  }

  lemma {:induction false} FirstComplete(c: Config, frames: seq<Frame>)
    requires (forall i :: 0 <= i < |frames| ==> !frames[i].Bad?) && WellCut(DataOf(frames))
    requires Rest(Payload(frames)) == [] && |Lines(Payload(frames))| == c.expected
    requires CompleteLines(Lines(Payload(frames)), c.route, c.width)
    ensures exists n :: 0 <= n <= |frames| && Delivers(c, frames[..n])
  {
    hide Split, CompleteLines, WellCut;
    assert frames[..|frames|] == frames;
    if frames == [] || |Lines(Payload(frames[..|frames| - 1]))| < c.expected {
      assert Delivers(c, frames);
    } else {
      var before := frames[..|frames| - 1];
      CutPrefix(frames);
      PayloadCat(before, frames[|frames| - 1..]);
      assert before + frames[|frames| - 1..] == frames;
      var rest: bytes :| Payload(frames) == Payload(before) + rest;
      LinesGrow(frames, |before|);
      NothingMore(Payload(before), rest);
      FirstComplete(c, before);
      var n :| 0 <= n <= |before| && Delivers(c, before[..n]);
      assert before[..n] == frames[..n];
    }
  }

  lemma NothingMore(a: bytes, b: bytes)
    requires Rest(a + b) == [] && |Lines(a + b)| <= |Lines(a)|
    ensures a + b == a
  {
    hide Split;
    SplitAcross(a, b);
    SplitRebuilds(Rest(a) + b);
    assert Terminated([]) + [] == [];
    assert b == [];
  }
}
