/** The verifier of downloaded archives: members read in order as one stream of chunks, across parts,
    hours and files. */
module DownloadCheck {
  import opened Results
  import opened Bytes
  import opened LogLine
  import opened LineCheck
  import LoadSource

  const MAX_MEMBER_BYTES: nat := 10 * 1024 * 1024

  /** A tar member and the non-empty pieces in which its content is read. */
  datatype Member = Member(name: string, regular: bool, chunks: seq<bytes>)

  datatype Archive = Archive(file: string, members: seq<Member>)

  /** A ZIP entry; its file name names the archive inside. */
  datatype Entry = Entry(archive: Archive, directory: bool, stored: bool)

  /** One downloaded file: a tar archive, or a ZIP whose entries are listed in natural order. */
  datatype Download = Single(archive: Archive) | Zip(entries: seq<Entry>)

  predicate EndsWith(s: string, suffix: string) {
    |s| >= |suffix| && s[|s| - |suffix|..] == suffix
  }

  /** Where the digits at the end of `s` begin. */
  function TrailingDigits(s: string): (i: nat)
    ensures i <= |s| && AllDigits(s[i..]) && (i > 0 ==> !IsDigit(s[i - 1]))
  {
    if s == [] || !IsDigit(s[|s| - 1]) then |s| else
    var i := TrailingDigits(s[..|s| - 1]);
    assert s[i..] == s[..|s| - 1][i..] + [s[|s| - 1]];
    i
  }

  /** The regular expression `(?:^|-)part-(\d+)\.log$` and the number it captures. */
  function PartNumber(name: string): Option<nat> {
    if !EndsWith(name, ".log") then None else
    var stem := name[..|name| - 4];
    var i := TrailingDigits(stem);
    var head := stem[..i];
    if i == |stem| || !EndsWith(head, "part-") then None else
    if |head| > 5 && head[|head| - 6] != '-' then None else Some(Value(stem[i..]))
  }

  /** A log part's name: nothing or something ending in a hyphen, then `part-`, digits, and `.log`. */
  ghost predicate PartName(name: string, head: string, digits: string) {
    && name == head + "part-" + digits + ".log" && digits != [] && AllDigits(digits)
    && (head != "" ==> head[|head| - 1] == '-')
  }

  /** The expression matches exactly the names of log parts, and captures their number. */
  lemma PartNumberExact(name: string)
    ensures PartNumber(name).Some? <==> exists head, digits :: PartName(name, head, digits)
    ensures forall head, digits :: PartName(name, head, digits) ==> PartNumber(name) == Some(Value(digits))
  {
    forall head, digits | PartName(name, head, digits)
      ensures PartNumber(name) == Some(Value(digits))
    {
      PartNumberReads(name, head, digits);
    }
    if PartNumber(name).Some? {
      PartNumberFound(name);
    }
  }

  lemma PartNumberReads(name: string, head: string, digits: string)
    requires PartName(name, head, digits)
    ensures PartNumber(name) == Some(Value(digits))
  {
    var stem := name[..|name| - 4];
    assert name[|name| - 4..] == ".log";
    assert stem == (head + "part-") + digits;
    TrailingDigitsIs(head + "part-", digits);
    assert stem[..|head| + 5] == head + "part-" && stem[|head| + 5..] == digits;
    assert (head + "part-")[|head|..] == "part-";
  }

  lemma {:induction false} TrailingDigitsIs(front: string, digits: string)
    requires AllDigits(digits) && front != [] && !IsDigit(front[|front| - 1])
    ensures TrailingDigits(front + digits) == |front|
  {
    var s := front + digits;
    if digits == [] {
      assert s == front;
    } else {
      var n := |digits| - 1;
      assert AllDigits(digits[..n]);
      assert s[..|s| - 1] == front + digits[..n];
      TrailingDigitsIs(front, digits[..n]);
    }
  }

  lemma PartNumberFound(name: string)
    requires PartNumber(name).Some?
    ensures exists head, digits :: PartName(name, head, digits)
  {
    hide TrailingDigits, Value;
    var stem := name[..|name| - 4];
    var i := TrailingDigits(stem);
    NamePieces(name, stem, i);
    assert PartName(name, stem[..i - 5], stem[i..]);
  }

  lemma NamePieces(name: string, stem: string, i: nat)
    requires EndsWith(name, ".log") && stem == name[..|name| - 4] && i <= |stem| && EndsWith(stem[..i], "part-")
    ensures i >= 5 && name == stem[..i - 5] + "part-" + stem[i..] + ".log"
  {
    assert stem[..i][i - 5..] == "part-" && stem[..i][..i - 5] == stem[..i - 5];
    assert stem[..i] == stem[..i - 5] + "part-";
    assert stem == stem[..i] + stem[i..];
  }

  /** A member about to be read: `previous` is the part number before it. */
  datatype Step = Step(file: string, member: Member, previous: nat)

  predicate Admissible(step: Step) {
    && step.member.regular
    && PartNumber(step.member.name) == Some(step.previous + 1)
    && |Flatten(step.member.chunks)| <= MAX_MEMBER_BYTES
  }

  datatype Progress = Progress(stream: Stream, members: set<(string, string)>, parts: nat)

  const FRESH := Progress(START, {}, 0)

  function ReadMember(p: Progress, step: Step): Result<Progress> {
    if !Admissible(step) || (step.file, step.member.name) in p.members then Err else
    var r := FeedAll(p.stream, step.member.chunks);
    if r.Err? then Err else Ok(Progress(r.value, p.members + {(step.file, step.member.name)}, p.parts + 1))
  }

  function ReadMembers(p: Progress, steps: seq<Step>): Result<Progress> {
    if steps == [] then Ok(p) else
    var r := ReadMembers(p, steps[..|steps| - 1]);
    if r.Err? then Err else ReadMember(r.value, steps[|steps| - 1])
  }

  /** Parts are numbered from one within each archive. */
  function StepsOf(a: Archive): seq<Step> {
    seq(|a.members|, (i: nat) requires i < |a.members| => Step(a.file, a.members[i], i))
  }

  function ArchiveSteps(archives: seq<Archive>): seq<Step> {
    if archives == [] then [] else ArchiveSteps(archives[..|archives| - 1]) + StepsOf(archives[|archives| - 1])
  }

  predicate GoodZip(entries: seq<Entry>) {
    && entries != []
    && (forall i :: 0 <= i < |entries| ==> !entries[i].directory && entries[i].stored && EndsWith(entries[i].archive.file, ".tar.gz"))
    && (forall i, j :: 0 <= i < j < |entries| ==> entries[i].archive.file != entries[j].archive.file)
  }

  predicate GoodFile(d: Download) {
    d.Zip? ==> GoodZip(d.entries)
  }

  predicate AllGood(ds: seq<Download>) {
    forall i :: 0 <= i < |ds| ==> GoodFile(ds[i])
  }

  function Archives(d: Download): seq<Archive> {
    match d
    case Single(a) => [a]
    case Zip(entries) => seq(|entries|, (i: nat) requires i < |entries| => entries[i].archive)
  }

  function Steps(ds: seq<Download>): seq<Step> {
    if ds == [] then [] else Steps(ds[..|ds| - 1]) + ArchiveSteps(Archives(ds[|ds| - 1]))
  }

  datatype Report = Report(digest: bytes, lines: nat, storedBytes: nat, logParts: nat, routes: map<nat, bytes>, routeLines: map<nat, nat>)

  /** `verify_download`. */
  function Verify(ds: seq<Download>, digest: bytes, lines: nat): Result<Report> {
    if ds == [] || !AllGood(ds) then Err else
    var r := ReadMembers(FRESH, Steps(ds));
    if r.Err? then Err else
    var seen := r.value.stream.seen;
    if r.value.stream.pending != [] || seen.digest != digest || seen.lines != lines then Err else
    Ok(Report(seen.digest, seen.lines, r.value.stream.stored, r.value.parts, seen.routes, seen.next))
  }

  // ----- what well packed means -------------------------------------------------------------------

  /** An archive of log parts: regular files of at most 10 MiB, named and numbered from one. */
  ghost predicate Made(a: Archive) {
    forall i :: 0 <= i < |a.members| ==> MadeAt(a, i)
  }

  ghost predicate MadeAt(a: Archive, i: nat)
    requires i < |a.members|
  {
    && a.members[i].regular && |Flatten(a.members[i].chunks)| <= 10485760
    && exists head, digits :: PartName(a.members[i].name, head, digits) && Value(digits) == i + 1
  }

  /** No name comes again under the same file name. */
  predicate NoRepeat(archives: seq<Archive>) {
    forall i, j, p, q ::
      (0 <= i < j < |archives| && 0 <= p < |archives[i].members| && 0 <= q < |archives[j].members|
       && archives[i].file == archives[j].file) ==>
        archives[i].members[p].name != archives[j].members[q].name
  }

  function ArchivesOf(ds: seq<Download>): seq<Archive> {
    if ds == [] then [] else ArchivesOf(ds[..|ds| - 1]) + Archives(ds[|ds| - 1])
  }

  lemma {:induction false} ArchiveStepsCat(a: seq<Archive>, b: seq<Archive>)
    ensures ArchiveSteps(a + b) == ArchiveSteps(a) + ArchiveSteps(b)
  {
    if b == [] {
      assert a + b == a;
    } else {
      ArchiveStepsCat(a, b[..|b| - 1]);
      assert (a + b)[..|a + b| - 1] == a + b[..|b| - 1];
    }
  }

  lemma {:induction false} StepsAreArchives(ds: seq<Download>)
    ensures Steps(ds) == ArchiveSteps(ArchivesOf(ds))
  {
    if ds != [] {
      StepsAreArchives(ds[..|ds| - 1]);
      ArchiveStepsCat(ArchivesOf(ds[..|ds| - 1]), Archives(ds[|ds| - 1]));
    }
  }

  lemma AdmissibleExact(a: Archive, i: nat)
    requires i < |a.members|
    ensures Admissible(Step(a.file, a.members[i], i)) <==> MadeAt(a, i)
  {
    hide PartNumber, Value;
    var name := a.members[i].name;
    PartNumberExact(name);
    if Admissible(Step(a.file, a.members[i], i)) {
      var head, digits :| PartName(name, head, digits);
      assert Value(digits) == i + 1;
    }
  }

  /** Within one archive the numbers keep the names apart. */
  lemma OneArchive(a: Archive)
    ensures Packed(StepsOf(a)) <==> Made(a)
  {
    hide Admissible, PartNumber;
    var steps := StepsOf(a);
    forall i | 0 <= i < |a.members|
      ensures Admissible(steps[i]) <==> MadeAt(a, i)
    {
      AdmissibleExact(a, i);
    }
    if Made(a) {
      forall j, k | 0 <= j < k < |steps|
        ensures Key(steps[j]) != Key(steps[k])
      {
        NumberOf(steps[j]);
        NumberOf(steps[k]);
      }
    }
  }

  lemma NumberOf(step: Step)
    requires Admissible(step)
    ensures PartNumber(step.member.name) == Some(step.previous + 1)
  {
  }

  lemma {:induction false} StepFrom(archives: seq<Archive>, k: nat)
    requires k < |ArchiveSteps(archives)|
    ensures exists i, p :: 0 <= i < |archives| && 0 <= p < |archives[i].members| &&
              ArchiveSteps(archives)[k] == Step(archives[i].file, archives[i].members[p], p)
  {
    var n := |archives| - 1;
    var before := ArchiveSteps(archives[..n]);
    if k < |before| {
      StepFrom(archives[..n], k);
      var i, p :| 0 <= i < n && 0 <= p < |archives[..n][i].members| &&
        before[k] == Step(archives[..n][i].file, archives[..n][i].members[p], p);
      assert archives[..n][i] == archives[i];
    } else {
      assert ArchiveSteps(archives)[k] == StepsOf(archives[n])[k - |before|];
    }
  }

  lemma {:induction false} StepAt(archives: seq<Archive>, i: nat, p: nat)
    requires i < |archives| && p < |archives[i].members|
    ensures Step(archives[i].file, archives[i].members[p], p) in ArchiveSteps(archives)
  {
    var n := |archives| - 1;
    if i < n {
      StepAt(archives[..n], i, p);
    } else {
      assert StepsOf(archives[n])[p] in StepsOf(archives[n]);
    }
  }

  /** Well packed, spelled out: every archive holds log parts, and none is repeated. */
  lemma {:induction false} PackedExact(archives: seq<Archive>)
    ensures Packed(ArchiveSteps(archives)) <==>
              (forall i :: 0 <= i < |archives| ==> Made(archives[i])) && NoRepeat(archives)
  {
    hide Admissible, Made, NoRepeat;
    if archives == [] {
      assert NoRepeat(archives) by {
        NothingRepeats();
      }
    } else {
      var n := |archives| - 1;
      var before, last := ArchiveSteps(archives[..n]), StepsOf(archives[n]);
      PackedExact(archives[..n]);
      OneArchive(archives[n]);
      PackedCat(before, last);
      assert Apart(before, last) <==> ApartFrom(archives[..n], archives[n]) by {
        ApartExact(archives[..n], archives[n]);
      }
      NoRepeatSnoc(archives);
      assert (forall i :: 0 <= i < |archives| ==> Made(archives[i])) <==>
             (forall i :: 0 <= i < n ==> Made(archives[..n][i])) && Made(archives[n]) by {
        assert forall i :: 0 <= i < n ==> archives[..n][i] == archives[i];
      }
    }
  }

  lemma NothingRepeats()
    ensures NoRepeat([])
  {
  }

  predicate Apart(a: seq<Step>, b: seq<Step>) {
    forall j, k :: 0 <= j < |a| && 0 <= k < |b| ==> Key(a[j]) != Key(b[k])
  }

  lemma PackedCat(a: seq<Step>, b: seq<Step>)
    ensures Packed(a + b) <==> Packed(a) && Packed(b) && Apart(a, b)
  {
    hide Admissible;
    var all := a + b;
    assert forall k :: 0 <= k < |a| ==> all[k] == a[k];
    assert forall k :: 0 <= k < |b| ==> all[|a| + k] == b[k];
    if Packed(all) {
      forall j, k | 0 <= j < |a| && 0 <= k < |b|
        ensures Key(a[j]) != Key(b[k])
      {
        assert Key(all[j]) != Key(all[|a| + k]);
      }
      forall j, k | 0 <= j < k < |b|
        ensures Key(b[j]) != Key(b[k])
      {
        assert Key(all[|a| + j]) != Key(all[|a| + k]);
      }
      assert Packed(a);
      forall k | 0 <= k < |b|
        ensures Admissible(b[k])
      {
        assert Admissible(all[|a| + k]);
      }
    }
  }

  /** An archive shares no name with earlier ones under the same file name. */
  predicate ApartFrom(archives: seq<Archive>, a: Archive) {
    forall i, p, q ::
      (0 <= i < |archives| && 0 <= p < |archives[i].members| && 0 <= q < |a.members| && archives[i].file == a.file) ==>
        archives[i].members[p].name != a.members[q].name
  }

  lemma ApartExact(archives: seq<Archive>, a: Archive)
    ensures Apart(ArchiveSteps(archives), StepsOf(a)) <==> ApartFrom(archives, a)
  {
    var before, last := ArchiveSteps(archives), StepsOf(a);
    if ApartFrom(archives, a) {
      forall j, k | 0 <= j < |before| && 0 <= k < |last|
        ensures Key(before[j]) != Key(last[k])
      {
        StepFrom(archives, j);
      }
    }
    if Apart(before, last) {
      forall i, p, q | 0 <= i < |archives| && 0 <= p < |archives[i].members| && 0 <= q < |a.members| && archives[i].file == a.file
        ensures archives[i].members[p].name != a.members[q].name
      {
        StepAt(archives, i, p);
        var j :| 0 <= j < |before| && before[j] == Step(archives[i].file, archives[i].members[p], p);
        assert Key(before[j]) != Key(last[q]);
      }
    }
  }

  lemma NoRepeatSnoc(archives: seq<Archive>)
    requires archives != []
    ensures NoRepeat(archives) <==> NoRepeat(archives[..|archives| - 1]) && ApartFrom(archives[..|archives| - 1], archives[|archives| - 1])
  {
    var n := |archives| - 1;
    assert forall i :: 0 <= i < n ==> archives[..n][i] == archives[i];
  }

  /** A ZIP file is a non-empty bundle of stored hourly archives, no name twice. */
  predicate Bundle(d: Download) {
    d.Zip? ==>
      && |d.entries| >= 1
      && (forall i :: 0 <= i < |d.entries| ==> !d.entries[i].directory && d.entries[i].stored)
      && (forall i :: 0 <= i < |d.entries| ==>
            |d.entries[i].archive.file| >= 7 && d.entries[i].archive.file[|d.entries[i].archive.file| - 7..] == ".tar.gz")
      && (forall i, j :: 0 <= i < j < |d.entries| ==> d.entries[i].archive.file != d.entries[j].archive.file)
  }

  /** What a download must be, apart from its text. */
  ghost predicate WellMade(ds: seq<Download>) {
    && |ds| >= 1 && (forall i :: 0 <= i < |ds| ==> Bundle(ds[i]))
    && (forall i :: 0 <= i < |ArchivesOf(ds)| ==> Made(ArchivesOf(ds)[i])) && NoRepeat(ArchivesOf(ds))
  }

  lemma WellMadeExact(ds: seq<Download>)
    ensures WellMade(ds) <==> ds != [] && AllGood(ds) && Packed(Steps(ds))
  {
    hide Packed, Made, NoRepeat, ArchivesOf, Steps, ArchiveSteps;
    StepsAreArchives(ds);
    PackedExact(ArchivesOf(ds));
    forall i | 0 <= i < |ds|
      ensures Bundle(ds[i]) <==> GoodFile(ds[i])
    {
    }
  }

  // ----- acceptance, exactly ----------------------------------------------------------------------

  function Chunks(steps: seq<Step>): seq<bytes> {
    if steps == [] then [] else Chunks(steps[..|steps| - 1]) + steps[|steps| - 1].member.chunks
  }

  /** The whole downloaded text. */
  function Data(ds: seq<Download>): bytes {
    Flatten(Chunks(Steps(ds)))
  }

  function Key(step: Step): (string, string) {
    (step.file, step.member.name)
  }

  /** Every member is an admissible log part in its turn, and none is repeated. */
  predicate Packed(steps: seq<Step>) {
    && (forall k :: 0 <= k < |steps| ==> Admissible(steps[k]))
    && (forall j, k :: 0 <= j < k < |steps| ==> Key(steps[j]) != Key(steps[k]))
  }

  function Keys(steps: seq<Step>): set<(string, string)> {
    set k | 0 <= k < |steps| :: Key(steps[k])
  }

  lemma {:induction false} MembersExact(steps: seq<Step>)
    ensures ReadMembers(FRESH, steps).Ok? <==> Packed(steps) && FeedAll(START, Chunks(steps)).Ok?
    ensures ReadMembers(FRESH, steps).Ok? ==>
              ReadMembers(FRESH, steps).value == Progress(FeedAll(START, Chunks(steps)).value, Keys(steps), |steps|)
  {
    hide Admissible, FeedAll;
    if steps == [] {
      FeedNothing();
    } else {
      var n := |steps| - 1;
      var last := steps[n];
      MembersExact(steps[..n]);
      FeedAllCat(START, Chunks(steps[..n]), last.member.chunks);
      assert Keys(steps) == Keys(steps[..n]) + {Key(last)} by {
        assert forall k :: 0 <= k < n ==> steps[..n][k] == steps[k];
      }
      PackedSnoc(steps);
    }
  }

  lemma FeedNothing()
    ensures FeedAll(START, []) == Ok(START)
  {
  }

  lemma PackedSnoc(steps: seq<Step>)
    requires steps != []
    ensures var n := |steps| - 1;
            Packed(steps) <==> Packed(steps[..n]) && Admissible(steps[n]) && Key(steps[n]) !in Keys(steps[..n])
  {
    hide Admissible, Key;
    var n := |steps| - 1;
    if Packed(steps[..n]) && Admissible(steps[n]) && Key(steps[n]) !in Keys(steps[..n]) {
      forall j, k | 0 <= j < k < |steps|
        ensures Key(steps[j]) != Key(steps[k])
      {
        assert Key(steps[..n][j]) in Keys(steps[..n]);
      }
    }
  }

  /** The verdict on the data alone: no truncated line, gapless numbering on every route, and the
      expected bodies and count. */
  predicate Expects(data: bytes, digest: bytes, lines: nat) {
    && Rest(data) == [] && Numbered(Lines(data))
    && digest == Bodies(Lines(data)) && lines == |Lines(data)|
  }

  /** When no line exceeds the limit, a download is accepted exactly when it is well packed and its
      text is the expected one, however the text was cut into chunks, members and files. */
  lemma VerifyExact(ds: seq<Download>, digest: bytes, lines: nat)
    requires Short(Data(ds))
    ensures Verify(ds, digest, lines).Ok? <==>
              WellMade(ds) && Expects(Data(ds), digest, lines)
  {
    hide Steps, ReadMembers, Packed, Numbered, Bodies, Lines, Rest, Short, AllGood, AllReadable, BookOf, Data, WellMade;
    ReadExact(ds);
    WellMadeExact(ds);
  }

  lemma ReadExact(ds: seq<Download>)
    ensures ReadMembers(FRESH, Steps(ds)).Ok? ==> Packed(Steps(ds)) && Numbered(Lines(Data(ds)))
    ensures Short(Data(ds)) && Packed(Steps(ds)) && Numbered(Lines(Data(ds))) ==> ReadMembers(FRESH, Steps(ds)).Ok?
    ensures ReadMembers(FRESH, Steps(ds)).Ok? ==>
              var p := ReadMembers(FRESH, Steps(ds)).value;
              && p.stream.pending == Rest(Data(ds)) && p.stream.stored == |Data(ds)| && p.parts == |Steps(ds)|
              && BooksOf(p.stream.seen, Lines(Data(ds)))
  {
    hide Steps, ReadMembers, Packed, Numbered, Bodies, Split, FeedAll, Feed, AllReadable, BooksOf;
    var steps := Steps(ds);
    MembersExact(steps);
    assert START.pending + Data(ds) == Data(ds);
    AcceptedIsWhole(START, Chunks(steps));
    if Short(Data(ds)) {
      ShortIsWhole(START, Chunks(steps));
    }
    WholeAccepts(Data(ds));
  }

  lemma WholeAccepts(data: bytes)
    ensures Feed(START, data).Ok? <==> |Rest(data)| <= MAX_PENDING_BYTES && Numbered(Lines(data))
    ensures Feed(START, data).Ok? ==>
              var s := Feed(START, data).value;
              && s.pending == Rest(data) && s.stored == |data|
              && BooksOf(s.seen, Lines(data))
  {
    assert START.pending + data == data;
    AcceptsNumbered(Lines(data));
  }

  /** Members in a list of archives. */
  function MembersIn(archives: seq<Archive>): nat {
    if archives == [] then 0 else MembersIn(archives[..|archives| - 1]) + |archives[|archives| - 1].members|
  }

  lemma {:induction false} StepCount(archives: seq<Archive>)
    ensures |ArchiveSteps(archives)| == MembersIn(archives)
  {
    if archives != [] {
      StepCount(archives[..|archives| - 1]);
    }
  }

  /** What a returned report proves about the download, with no assumption on line lengths. */
  lemma VerifySound(ds: seq<Download>, digest: bytes, lines: nat)
    requires Verify(ds, digest, lines).Ok?
    ensures WellMade(ds) && Expects(Data(ds), digest, lines)
    ensures var report := Verify(ds, digest, lines).value;
            var raws := Lines(Data(ds));
            && report.digest == digest && report.lines == lines && report.logParts == MembersIn(ArchivesOf(ds))
            && report.storedBytes == |digest| + STAMP_BYTES * lines
            && forall route: nat ::
                 var own := Projection(raws, route);
                 && (route in report.routes <==> own != []) && (route in report.routeLines <==> own != [])
                 && (own != [] ==> report.routeLines[route] == |own| && report.routes[route] == Bodies(own))
  {
    hide Steps, ReadMembers, Packed, Bodies, Split, GoodFile, Projection, Readable, WellMade;
    ReadExact(ds);
    WellMadeExact(ds);
    StepsAreArchives(ds);
    StepCount(ArchivesOf(ds));
    var raws := Lines(Data(ds));
    SplitRebuilds(Data(ds));
    assert Terminated(raws) + [] == Terminated(raws);
    BodyBytes(raws);
    var v := Verify(ds, digest, lines).value;
    forall route: nat
      ensures var own := Projection(raws, route);
              && (route in v.routes <==> own != []) && (route in v.routeLines <==> own != [])
              && (own != [] ==> v.routeLines[route] == |own| && v.routes[route] == Bodies(own))
    {
      assert BookOf(ReadMembers(FRESH, Steps(ds)).value.stream.seen, raws, route);
    }
  }

  // ----- completeness for the load source ---------------------------------------------------------

  ghost predicate Stamps(stamps: seq<bytes>) {
    forall k :: 0 <= k < |stamps| ==> |stamps[k]| == STAMP_BYTES && Stamped(stamps[k])
  }

  /** Line `q` as the file holds it: behind its stamp and without the newline. */
  function StoredAs(line: LoadSource.LineMaker, q: nat, stamp: bytes): bytes {
    var made := line(q);
    if made.Err? || made.value == [] then stamp else stamp + made.value[..|made.value| - 1]
  }

  /** The stored form of the first lines of a source: each behind the stamp the server gave it. */
  function Stored(line: LoadSource.LineMaker, stamps: seq<bytes>): seq<bytes> {
    if stamps == [] then [] else
    var n := |stamps| - 1;
    Stored(line, stamps[..n]) + [StoredAs(line, n, stamps[n])]
  }

  /** One stored line reads back as its route, number and body, and can be split off the stream. */
  ghost predicate ReadsAs(raw: bytes, route: nat, width: nat, q: nat, body: bytes) {
    && Readable(raw) && RouteOf(raw) == route && SequenceOf(raw) == q && Body(raw) == body
    && '\n' !in raw && |raw| + 1 == STAMP_BYTES + width
  }

  ghost predicate LinesOf(line: LoadSource.LineMaker, route: nat, width: nat) {
    line == LoadSource.LineOf(route, width)
  }

  lemma StoredLine(line: LoadSource.LineMaker, route: nat, width: nat, q: nat, stamp: bytes)
    requires LinesOf(line, route, width) && line(q).Ok? && |stamp| == STAMP_BYTES && Stamped(stamp)
    ensures ReadsAs(StoredAs(line, q, stamp), route, width, q, line(q).value)
  {
    LineReadsBack(route, width, q, stamp);
    StampUnbroken(stamp);
  }

  /** Lines of one route only, numbered from zero. */
  predicate SingleRoute(raws: seq<bytes>, route: nat) {
    Numbered(raws) && Projection(raws, route) == raws
  }

  lemma NextLine(raws: seq<bytes>, raw: bytes, route: nat)
    requires SingleRoute(raws, route) && Readable(raw) && RouteOf(raw) == route && SequenceOf(raw) == |raws|
    ensures SingleRoute(raws + [raw], route) && Bodies(raws + [raw]) == Bodies(raws) + Body(raw)
  {
    hide Readable, RouteOf, SequenceOf, Body;
    var more := raws + [raw];
    assert more[..|raws|] == raws;
    NumberedSnoc(more);
  }

  ghost predicate Separable(raws: seq<bytes>, width: nat) {
    forall k :: 0 <= k < |raws| ==> '\n' !in raws[k] && |raws[k]| + 1 == STAMP_BYTES + width
  }

  lemma {:induction false} StoredNumbered(line: LoadSource.LineMaker, route: nat, width: nat, stamps: seq<bytes>)
    requires LinesOf(line, route, width) && LoadSource.Fits(line, |stamps|) && Stamps(stamps)
    ensures var raws := Stored(line, stamps);
            && |raws| == |stamps| && SingleRoute(raws, route) && Separable(raws, width)
            && Bodies(raws) == LoadSource.Span(line, 0, |stamps|)
  {
    hide Readable, RouteOf, SequenceOf, Body, StoredAs, LinesOf, SingleRoute, Bodies, Stamped;
    if stamps == [] {
      NoLines(route);
    } else {
      var n := |stamps| - 1;
      StoredNumbered(line, route, width, stamps[..n]);
      StoredLine(line, route, width, n, stamps[n]);
      NextLine(Stored(line, stamps[..n]), StoredAs(line, n, stamps[n]), route);
    }
  }

  lemma NoLines(route: nat)
    ensures SingleRoute([], route) && Bodies([]) == []
  {
  }

  /** The lines a source emits, however they are stamped, chunked, and packed into consecutively
      numbered parts and files, are accepted with the source's own digest and count. */
  lemma EmittedAccepted(route: nat, width: nat, stamps: seq<bytes>, ds: seq<Download>)
    requires 1 <= width <= 65536 && Stamps(stamps)
    requires LoadSource.Fits(LoadSource.LineOf(route, width), |stamps|)
    requires WellMade(ds)
    requires Data(ds) == Terminated(Stored(LoadSource.LineOf(route, width), stamps))
    ensures Verify(ds, LoadSource.Span(LoadSource.LineOf(route, width), 0, |stamps|), |stamps|).Ok?
  {
    hide Readable, Numbered, Bodies, Projection, Split, WellMade, Verify, Stored, Data, Terminated,
         LoadSource.Fits, LoadSource.Span, Stamps;
    var line := LoadSource.LineOf(route, width);
    StoredNumbered(line, route, width, stamps);
    var raws := Stored(line, stamps);
    assert Terminated(raws) + [] == Terminated(raws);
    SplitUnique(raws, []);
    VerifyExact(ds, LoadSource.Span(line, 0, |stamps|), |stamps|);
  }

  /** An archive as the collector names its parts. */
  predicate Named(a: Archive, stems: seq<string>) {
    && |stems| == |a.members|
    && forall i :: 0 <= i < |a.members| ==>
         && a.members[i].regular && |Flatten(a.members[i].chunks)| <= 10485760
         && a.members[i].name == stems[i] + "-part-" + Padded(i + 1, 6) + ".log"
  }

  lemma NamedMade(a: Archive, stems: seq<string>)
    requires Named(a, stems)
    ensures Made(a)
  {
    hide Padded;
    forall i | 0 <= i < |a.members|
      ensures MadeAt(a, i)
    {
      var head, digits := stems[i] + "-", Padded(i + 1, 6);
      assert a.members[i].name == head + "part-" + digits + ".log";
      assert PartName(a.members[i].name, head, digits);
    }
  }

  /** So is everything the collector packs: its own part names, in archives of different names. */
  lemma CollectedAccepted(route: nat, width: nat, stamps: seq<bytes>, ds: seq<Download>, stems: seq<seq<string>>)
    requires 1 <= width <= 65536 && Stamps(stamps)
    requires LoadSource.Fits(LoadSource.LineOf(route, width), |stamps|)
    requires ds != [] && (forall i :: 0 <= i < |ds| ==> Bundle(ds[i])) && |stems| == |ArchivesOf(ds)|
    requires forall i :: 0 <= i < |ArchivesOf(ds)| ==> Named(ArchivesOf(ds)[i], stems[i])
    requires forall i, j :: 0 <= i < j < |ArchivesOf(ds)| ==> ArchivesOf(ds)[i].file != ArchivesOf(ds)[j].file
    requires Data(ds) == Terminated(Stored(LoadSource.LineOf(route, width), stamps))
    ensures Verify(ds, LoadSource.Span(LoadSource.LineOf(route, width), 0, |stamps|), |stamps|).Ok?
  {
    hide Named, Made, Verify, Stored, Data, ArchivesOf, Terminated, Stamps, Bundle, LoadSource.Fits, LoadSource.Span;
    forall i | 0 <= i < |ArchivesOf(ds)|
      ensures Made(ArchivesOf(ds)[i])
    {
      NamedMade(ArchivesOf(ds)[i], stems[i]);
    }
    EmittedAccepted(route, width, stamps, ds);
  }

  // ----- the program text -------------------------------------------------------------------------

  /** The `state` dictionary of `verify_download`, updated in place by the nested loops. */
  class Checker {
    var next: map<nat, nat>
    var routes: map<nat, bytes>
    var digest: bytes
    var lines: nat
    var members: set<(string, string)>
    var pending: bytes
    var storedBytes: nat
    var logParts: nat

    constructor ()
      ensures State() == FRESH
    {
      next, routes, digest, lines := map[], map[], [], 0;
      members, pending, storedBytes, logParts := {}, [], 0, 0;
    }

    function SeenNow(): Seen
      reads this
    {
      Seen(next, routes, digest, lines)
    }

    function State(): Progress
      reads this
    {
      Progress(Stream(SeenNow(), pending, storedBytes), members, logParts)
    }

    method Line(raw: bytes) returns (ok: bool)
      modifies this`next, this`routes, this`digest, this`lines
      ensures ok == CheckLine(old(SeenNow()), raw).Ok?
      ensures ok ==> SeenNow() == CheckLine(old(SeenNow()), raw).value
    {
      if !Stamped(raw) {
        return false;
      }
      var body := Body(raw);
      var header := Header(body);
      if header.None? {
        return false;
      }
      var (route, sequence) := header.value;
      var expected := if route in next then next[route] else 0;
      if sequence != expected {
        return false;
      }
      next := next[route := expected + 1];
      routes := routes[route := (if route in routes then routes[route] else []) + body];
      digest := digest + body;
      lines := lines + 1;
      return true;
    }

    method Chunk(chunk: bytes) returns (ok: bool)
      modifies this`next, this`routes, this`digest, this`lines, this`pending, this`storedBytes
      ensures ok == Feed(old(State().stream), chunk).Ok?
      ensures ok ==> State().stream == Feed(old(State().stream), chunk).value
    {
      hide CheckLine, Split;
      storedBytes := storedBytes + |chunk|;
      var complete := Lines(pending + chunk);
      pending := Rest(pending + chunk);
      if |pending| > MAX_PENDING_BYTES {
        return false;
      }
      var k := 0;
      while k < |complete|
        invariant k <= |complete| && CheckLines(old(SeenNow()), complete[..k]) == Ok(SeenNow())
        invariant pending == Rest(old(pending) + chunk) && storedBytes == old(storedBytes) + |chunk|
      {
        assert complete[..k + 1][..k] == complete[..k];
        var good := Line(complete[k]);
        if !good {
          RejectedStays(old(SeenNow()), complete, k + 1);
          return false;
        }
        k := k + 1;
      }
      assert complete[..k] == complete;
      return true;
    }

    method Part(step: Step) returns (ok: bool)
      modifies this
      ensures ok == ReadMember(old(State()), step).Ok?
      ensures ok ==> State() == ReadMember(old(State()), step).value
    {
      hide Feed, Admissible;
      if !Admissible(step) || (step.file, step.member.name) in members {
        return false;
      }
      members := members + {(step.file, step.member.name)};
      logParts := logParts + 1;
      var chunks := step.member.chunks;
      var k := 0;
      while k < |chunks|
        invariant k <= |chunks| && FeedAll(old(State().stream), chunks[..k]) == Ok(State().stream)
        invariant members == old(members) + {(step.file, step.member.name)} && logParts == old(logParts) + 1
      {
        assert chunks[..k + 1][..k] == chunks[..k];
        var good := Chunk(chunks[k]);
        if !good {
          FailedStays(old(State().stream), chunks, k + 1);
          return false;
        }
        k := k + 1;
      }
      assert chunks[..k] == chunks;
      return true;
    }

    method Members(steps: seq<Step>) returns (ok: bool)
      modifies this
      ensures ok == ReadMembers(old(State()), steps).Ok?
      ensures ok ==> State() == ReadMembers(old(State()), steps).value
    {
      hide ReadMember;
      var k := 0;
      while k < |steps|
        invariant k <= |steps| && ReadMembers(old(State()), steps[..k]) == Ok(State())
      {
        assert steps[..k + 1][..k] == steps[..k];
        var good := Part(steps[k]);
        if !good {
          UnreadStays(old(State()), steps, k + 1);
          return false;
        }
        k := k + 1;
      }
      assert steps[..k] == steps;
      return true;
    }
  }

  lemma {:induction false} RejectedStays(v: Seen, raws: seq<bytes>, k: nat)
    requires k <= |raws| && CheckLines(v, raws[..k]).Err?
    ensures CheckLines(v, raws).Err?
  {
    hide CheckLines;
    CheckLinesCat(v, raws[..k], raws[k..]);
    assert raws[..k] + raws[k..] == raws;
  }

  lemma {:induction false} FailedStays(s: Stream, chunks: seq<bytes>, k: nat)
    requires k <= |chunks| && FeedAll(s, chunks[..k]).Err?
    ensures FeedAll(s, chunks).Err?
  {
    hide FeedAll;
    FeedAllCat(s, chunks[..k], chunks[k..]);
    assert chunks[..k] + chunks[k..] == chunks;
  }

  lemma {:induction false} UnreadStays(p: Progress, steps: seq<Step>, k: nat)
    requires k <= |steps| && ReadMembers(p, steps[..k]).Err?
    ensures ReadMembers(p, steps).Err?
  {
    hide ReadMember;
    if k < |steps| {
      var n := |steps| - 1;
      assert steps[..n][..k] == steps[..k];
      UnreadStays(p, steps[..n], k);
    } else {
      assert steps[..k] == steps;
    }
  }

  /** `verify_download` with its mutable state. */
  method VerifyDownload(ds: seq<Download>, digest: bytes, lines: nat) returns (r: Result<Report>)
    ensures r == Verify(ds, digest, lines)
  {
    hide ReadMembers, Steps, GoodFile;
    if ds == [] || !AllGood(ds) {
      return Err;
    }
    var state := new Checker();
    var ok := state.Members(Steps(ds));
    if !ok || state.pending != [] || state.digest != digest || state.lines != lines {
      return Err;
    }
    return Ok(Report(state.digest, state.lines, state.storedBytes, state.logParts, state.routes, state.next));
  }
}
