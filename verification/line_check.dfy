/** The streaming line checker: half lines carried between chunks, per-route numbering and digests.
    SHA-256 is represented by the bytes it has absorbed. */
module LineCheck {
  import opened Results
  import opened Bytes
  import opened LogLine

  const MAX_PENDING_BYTES: nat := 65536 + 22

  datatype Seen = Seen(next: map<nat, nat>, routes: map<nat, bytes>, digest: bytes, lines: nat)

  const NOTHING := Seen(map[], map[], [], 0)

  /** The line has a valid stamp and a route and sequence number. */
  predicate Readable(raw: bytes): (ok: bool)
    ensures ok ==> |raw| >= STAMP_BYTES
  {
    Stamped(raw) && Header(Body(raw)).Some?
  }

  function RouteOf(raw: bytes): nat
    requires Readable(raw)
  {
    Header(Body(raw)).value.0
  }

  function SequenceOf(raw: bytes): nat
    requires Readable(raw)
  {
    Header(Body(raw)).value.1
  }

  /** Spelled out: a written-out time, then this route and sequence number. */
  lemma ReadableText(raw: bytes, route: nat, sequence: nat)
    ensures Readable(raw) && RouteOf(raw) == route && SequenceOf(raw) == sequence <==>
              BeginsWithTime(raw) && |raw| >= 22 && Announces(raw[22..] + "\n", route, sequence)
  {
    hide Header, Stamped, StampText;
    StampExact(raw);
    StampLong(raw);
    if |raw| >= STAMP_BYTES {
      AnnouncesExact(Body(raw), route, sequence);
    }
  }

  function Expected(v: Seen, route: nat): nat {
    if route in v.next then v.next[route] else 0
  }

  function Enter(v: Seen, route: nat, body: bytes): Seen {
    Seen(v.next[route := Expected(v, route) + 1],
         v.routes[route := (if route in v.routes then v.routes[route] else []) + body],
         v.digest + body, v.lines + 1)
  }

  /** `_line`. */
  function CheckLine(v: Seen, raw: bytes): Result<Seen> {
    if !Readable(raw) || SequenceOf(raw) != Expected(v, RouteOf(raw)) then Err
    else Ok(Enter(v, RouteOf(raw), Body(raw)))
  }

  function CheckLines(v: Seen, raws: seq<bytes>): Result<Seen> {
    if raws == [] then Ok(v) else
    var r := CheckLines(v, raws[..|raws| - 1]);
    if r.Err? then Err else CheckLine(r.value, raws[|raws| - 1])
  }

  lemma {:induction false} CheckLinesCat(v: Seen, a: seq<bytes>, b: seq<bytes>)
    ensures CheckLines(v, a + b) == var r := CheckLines(v, a); if r.Err? then Err else CheckLines(r.value, b)
  {
    hide CheckLine;
    if b == [] {
      assert a + b == a;
    } else {
      CheckLinesCat(v, a, b[..|b| - 1]);
      assert (a + b)[..|a + b| - 1] == a + b[..|b| - 1];
    }
  }

  // ----- what acceptance means --------------------------------------------------------------------

  predicate AllReadable(raws: seq<bytes>) {
    forall k :: 0 <= k < |raws| ==> Readable(raws[k])
  }

  /** The lines of one route, in order. */
  function Projection(raws: seq<bytes>, route: nat): (own: seq<bytes>)
    requires AllReadable(raws)
    ensures AllReadable(own)
  {
    if raws == [] then [] else
    var last := raws[|raws| - 1];
    Projection(raws[..|raws| - 1], route) + if RouteOf(last) == route then [last] else []
  }

  /** Every line's sequence number is the number of earlier lines of its route. */
  predicate Numbered(raws: seq<bytes>) {
    AllReadable(raws) && forall k :: 0 <= k < |raws| ==> NumberedAt(raws, k)
  }

  predicate NumberedAt(raws: seq<bytes>, k: nat)
    requires AllReadable(raws) && k < |raws|
  {
    SequenceOf(raws[k]) == |Projection(raws[..k], RouteOf(raws[k]))|
  }

  lemma NumberedSnoc(raws: seq<bytes>)
    requires raws != []
    ensures var n := |raws| - 1;
            Numbered(raws) <==> Numbered(raws[..n]) && AllReadable(raws) && NumberedAt(raws, n)
  {
    hide Readable, RouteOf, SequenceOf, Body;
    var n := |raws| - 1;
    if AllReadable(raws) {
      forall k | 0 <= k < n
        ensures NumberedAt(raws, k) == NumberedAt(raws[..n], k)
      {
        assert raws[..n][..k] == raws[..k];
      }
    }
  }

  /** The books of `v` are exactly those of the lines `raws`. */
  ghost predicate BooksOf(v: Seen, raws: seq<bytes>)
    requires AllReadable(raws)
  {
    && v.lines == |raws| && v.digest == Bodies(raws)
    && forall route: nat :: BookOf(v, raws, route)
  }

  ghost predicate BookOf(v: Seen, raws: seq<bytes>, route: nat)
    requires AllReadable(raws)
  {
    var own := Projection(raws, route);
    && (route in v.next <==> own != []) && (route in v.routes <==> own != [])
    && (own != [] ==> v.next[route] == |own| && v.routes[route] == Bodies(own))
  }

  /** Acceptance exactly: the numbering is gapless per route, and then every count and digest is that
      of the lines read. */
  lemma {:induction false} AcceptsNumbered(raws: seq<bytes>)
    ensures CheckLines(NOTHING, raws).Ok? <==> Numbered(raws)
    ensures Numbered(raws) ==> BooksOf(CheckLines(NOTHING, raws).value, raws)
  {
    hide Readable, RouteOf, SequenceOf, Body;
    if raws != [] {
      var n := |raws| - 1;
      AcceptsNumbered(raws[..n]);
      NumberedSnoc(raws);
      if Numbered(raws[..n]) && Readable(raws[n]) {
        var v := CheckLines(NOTHING, raws[..n]).value;
        assert AllReadable(raws);
        assert BookOf(v, raws[..n], RouteOf(raws[n]));
        if NumberedAt(raws, n) {
          StepBooks(v, raws);
        }
      }
    }
  }

  lemma StepBooks(v: Seen, raws: seq<bytes>)
    requires raws != [] && AllReadable(raws) && BooksOf(v, raws[..|raws| - 1])
    ensures BooksOf(Enter(v, RouteOf(raws[|raws| - 1]), Body(raws[|raws| - 1])), raws)
  {
    hide Readable, RouteOf, SequenceOf, Body;
    var last := raws[|raws| - 1];
    forall route: nat
      ensures BookOf(Enter(v, RouteOf(last), Body(last)), raws, route)
    {
      BookStep(v, raws, route);
    }
  }

  lemma BookStep(v: Seen, raws: seq<bytes>, route: nat)
    requires raws != [] && AllReadable(raws) && BookOf(v, raws[..|raws| - 1], route)
    ensures BookOf(Enter(v, RouteOf(raws[|raws| - 1]), Body(raws[|raws| - 1])), raws, route)
  {
    hide Readable, RouteOf, SequenceOf, Body;
    var before := Projection(raws[..|raws| - 1], route);
    var last := raws[|raws| - 1];
    var own := Projection(raws, route);
    if route == RouteOf(last) {
      assert own == before + [last] && own[..|own| - 1] == before;
      assert before == [] ==> Bodies(before) == [];
    } else {
      assert own == before;
    }
  }

  lemma {:induction false} BodyBytes(raws: seq<bytes>)
    requires AllReadable(raws)
    ensures |Terminated(raws)| == |Bodies(raws)| + STAMP_BYTES * |raws|
  {
    hide Readable, RouteOf, SequenceOf, Body;
    if raws != [] {
      var n := |raws| - 1;
      BodyBytes(raws[..n]);
      assert raws == raws[..n] + [raws[n]];
      TerminatedCat(raws[..n], [raws[n]]);
      assert Terminated([raws[n]]) == raws[n] + "\n" + Terminated([]);
    }
  }

  // ----- chunks -----------------------------------------------------------------------------------

  datatype Stream = Stream(seen: Seen, pending: bytes, stored: nat)

  const START := Stream(NOTHING, [], 0)

  /** One turn of the read loop of `_tar`. */
  function Feed(s: Stream, chunk: bytes): Result<Stream> {
    var buffer := s.pending + chunk;
    if |Rest(buffer)| > MAX_PENDING_BYTES then Err else
    var r := CheckLines(s.seen, Lines(buffer));
    if r.Err? then Err else Ok(Stream(r.value, Rest(buffer), s.stored + |chunk|))
  }

  function FeedAll(s: Stream, chunks: seq<bytes>): Result<Stream> {
    if chunks == [] then Ok(s) else
    var r := FeedAll(s, chunks[..|chunks| - 1]);
    if r.Err? then Err else Feed(r.value, chunks[|chunks| - 1])
  }

  lemma {:induction false} FeedAllCat(s: Stream, a: seq<bytes>, b: seq<bytes>)
    ensures FeedAll(s, a + b) == var r := FeedAll(s, a); if r.Err? then Err else FeedAll(r.value, b)
  {
    if b == [] {
      assert a + b == a;
    } else {
      FeedAllCat(s, a, b[..|b| - 1]);
      assert (a + b)[..|a + b| - 1] == a + b[..|b| - 1];
    }
  }

  /** What is carried from chunk to chunk is a bounded half line. */
  predicate Carried(s: Stream) {
    |s.pending| <= MAX_PENDING_BYTES && '\n' !in s.pending
  }

  lemma {:induction false} CarriedAlways(s: Stream, chunks: seq<bytes>)
    requires Carried(s)
    ensures FeedAll(s, chunks).Ok? ==> Carried(FeedAll(s, chunks).value)
  {
    if chunks != [] {
      CarriedAlways(s, chunks[..|chunks| - 1]);
      var r := FeedAll(s, chunks[..|chunks| - 1]);
      if r.Ok? {
        SplitRebuilds(r.value.pending + chunks[|chunks| - 1]);
      }
    }
  }

  /** Two chunks or one: the same result, except that the cut itself can leave too long a half line. */
  lemma FeedTwo(s: Stream, a: bytes, b: bytes)
    ensures Feed(s, a).Ok? ==> Feed(Feed(s, a).value, b) == Feed(s, a + b)
    ensures Feed(s, a + b).Ok? && |Rest(s.pending + a)| <= MAX_PENDING_BYTES ==> Feed(s, a).Ok?
  {
    hide CheckLines, Split;
    var first := s.pending + a;
    Together(s.seen, first, b);
    assert s.pending + (a + b) == first + b;
  }

  lemma Together(v: Seen, first: bytes, b: bytes)
    ensures Rest(first + b) == Rest(Rest(first) + b)
    ensures CheckLines(v, Lines(first + b)) ==
              var r := CheckLines(v, Lines(first)); if r.Err? then Err else CheckLines(r.value, Lines(Rest(first) + b))
  {
    hide CheckLines, Split;
    SplitAcross(first, b);
    CheckLinesCat(v, Lines(first), Lines(Rest(first) + b));
  }

  lemma {:induction false} AcceptedIsWhole(s: Stream, chunks: seq<bytes>)
    requires Carried(s)
    ensures FeedAll(s, chunks).Ok? ==> FeedAll(s, chunks) == Feed(s, Flatten(chunks))
  {
    if chunks == [] {
      NoNewData(s);
    } else {
      var n := |chunks| - 1;
      AcceptedIsWhole(s, chunks[..n]);
      FlattenSnoc(chunks[..n], chunks[n]);
      assert chunks[..n] + [chunks[n]] == chunks;
      FeedTwo(s, Flatten(chunks[..n]), chunks[n]);
    }
  }

  lemma NoNewData(s: Stream)
    requires Carried(s)
    ensures Feed(s, []) == Ok(s)
  {
    assert s.pending + [] == s.pending;
    assert Terminated([]) + s.pending == s.pending;
    SplitUnique([], s.pending);
  }

  /** No line, complete or not, is longer than the limit. */
  predicate Short(data: bytes) {
    |Rest(data)| <= MAX_PENDING_BYTES && forall k :: 0 <= k < |Lines(data)| ==> |Lines(data)[k]| <= MAX_PENDING_BYTES
  }

  lemma HalfOfShort(a: bytes, b: bytes)
    requires Short(a + b)
    ensures Short(a) && |Rest(a)| <= MAX_PENDING_BYTES
  {
    SplitAcross(a, b);
    SplitRebuilds(a);
    var c := Rest(a) + b;
    SplitRebuilds(c);
    assert forall k :: 0 <= k < |Lines(a)| ==> Lines(a + b)[k] == Lines(a)[k];
    if Lines(c) == [] {
      assert Terminated([]) + Rest(c) == Rest(c);
    } else {
      assert Lines(a + b)[|Lines(a)|] == Lines(c)[0];
      assert forall k :: 0 <= k < |Rest(a)| ==> c[k] == Rest(a)[k];
      assert Newline(c) >= |Rest(a)|;
    }
  }

  lemma {:induction false} ShortIsWhole(s: Stream, chunks: seq<bytes>)
    requires Carried(s) && Short(s.pending + Flatten(chunks))
    ensures FeedAll(s, chunks) == Feed(s, Flatten(chunks))
  {
    if chunks == [] {
      NoNewData(s);
    } else {
      var n := |chunks| - 1;
      FlattenSnoc(chunks[..n], chunks[n]);
      assert chunks[..n] + [chunks[n]] == chunks;
      assert s.pending + Flatten(chunks) == (s.pending + Flatten(chunks[..n])) + chunks[n];
      HalfOfShort(s.pending + Flatten(chunks[..n]), chunks[n]);
      ShortIsWhole(s, chunks[..n]);
      FeedTwo(s, Flatten(chunks[..n]), chunks[n]);
    }
  }

  // ----- the cuttings the program makes -----------------------------------------------------------

  /** `read(64 * 1024)`: at most so much at a time, and nothing only at the end. */
  const READ_BYTES: nat := 65536

  predicate Reads(chunks: seq<bytes>) {
    forall k :: 0 <= k < |chunks| ==> 1 <= |chunks[k]| <= READ_BYTES
  }

  /** The data as some sequence of reads delivers it. */
  predicate Cuts(chunks: seq<bytes>, data: bytes) {
    Reads(chunks) && Flatten(chunks) == data
  }

  /** The longest line any sequence of reads can get through: the rest of it and its newline must come
      in one read behind a half line within the limit. */
  const LONGEST: nat := MAX_PENDING_BYTES + READ_BYTES - 1

  predicate LinesUpTo(lines: seq<bytes>, n: nat) {
    forall k :: 0 <= k < |lines| ==> |lines[k]| <= n
  }

  /** A completed line fits into what was carried and read. */
  lemma LinesFit(buffer: bytes)
    ensures forall k :: 0 <= k < |Lines(buffer)| ==> |Lines(buffer)[k]| + 1 <= |buffer|
  {
    SplitRebuilds(buffer);
    forall k | 0 <= k < |Lines(buffer)|
      ensures |Lines(buffer)[k]| + 1 <= |buffer|
    {
      TerminatedHolds(Lines(buffer), k);
    }
  }

  lemma {:induction false} TerminatedHolds(lines: seq<bytes>, k: nat)
    requires k < |lines|
    ensures |lines[k]| + 1 <= |Terminated(lines)|
  {
    if k > 0 {
      TerminatedHolds(lines[1..], k - 1);
    }
  }

  lemma {:induction false} AcceptedLinesFit(chunks: seq<bytes>)
    requires Reads(chunks) && FeedAll(START, chunks).Ok?
    ensures LinesUpTo(Lines(Flatten(chunks)), LONGEST)
    ensures FeedAll(START, chunks).value.pending == Rest(Flatten(chunks))
  {
    hide CheckLines, Split;
    CarriedAlways(START, chunks);
    AcceptedIsWhole(START, chunks);
    assert START.pending + Flatten(chunks) == Flatten(chunks);
    if chunks == [] {
      NoLinesIn([]);
    } else {
      var n := |chunks| - 1;
      AcceptedLinesFit(chunks[..n]);
      CarriedAlways(START, chunks[..n]);
      var s := FeedAll(START, chunks[..n]).value;
      FlattenSnoc(chunks[..n], chunks[n]);
      assert chunks[..n] + [chunks[n]] == chunks;
      SplitAcross(Flatten(chunks[..n]), chunks[n]);
      LinesFit(s.pending + chunks[n]);
    }
  }

  lemma NoLinesIn(half: bytes)
    requires '\n' !in half
    ensures Lines(half) == [] && Rest(half) == half
  {
    assert Terminated([]) + half == half;
    SplitUnique([], half);
  }

  /** Data in reads of full size. */
  function Blocks(data: bytes): (chunks: seq<bytes>)
    ensures Cuts(chunks, data)
  {
    if data == [] then []
    else if |data| <= READ_BYTES then
      assert Flatten([data]) == data + Flatten([]);
      [data]
    else
      var rest := Blocks(data[READ_BYTES..]);
      assert ([data[..READ_BYTES]] + rest)[1..] == rest;
      [data[..READ_BYTES]] + rest
  }

  lemma CutsCat(a: seq<bytes>, x: bytes, b: seq<bytes>, y: bytes)
    requires Cuts(a, x) && Cuts(b, y)
    ensures Cuts(a + b, x + y)
  {
    FlattenCat(a, b);
  }

  lemma FeedHalfOne(s: Stream, chunk: bytes)
    requires '\n' !in s.pending + chunk && |s.pending + chunk| <= MAX_PENDING_BYTES
    ensures Feed(s, chunk) == Ok(s.(pending := s.pending + chunk, stored := s.stored + |chunk|))
  {
    hide Split;
    NoLinesIn(s.pending + chunk);
  }

  /** A half line is only collected. */
  lemma {:induction false} FeedHalf(s: Stream, chunks: seq<bytes>)
    requires '\n' !in s.pending + Flatten(chunks) && |s.pending + Flatten(chunks)| <= MAX_PENDING_BYTES
    ensures FeedAll(s, chunks) == Ok(s.(pending := s.pending + Flatten(chunks), stored := s.stored + |Flatten(chunks)|))
  {
    hide Feed;
    if chunks == [] {
      assert s.pending + Flatten(chunks) == s.pending;
    } else {
      var n := |chunks| - 1;
      FlattenSnoc(chunks[..n], chunks[n]);
      assert chunks[..n] + [chunks[n]] == chunks;
      var before := s.pending + Flatten(chunks[..n]);
      assert s.pending + Flatten(chunks) == before + chunks[n];
      FeedHalf(s, chunks[..n]);
      FeedHalfOne(FeedAll(s, chunks[..n]).value, chunks[n]);
    }
  }

  function Head(line: bytes): nat {
    if |line| <= MAX_PENDING_BYTES then |line| else MAX_PENDING_BYTES
  }

  /** The reads that get one line through: as much of it as may wait, then the rest with its newline. */
  function LineReads(line: bytes): seq<bytes> {
    Blocks(line[..Head(line)]) + [line[Head(line)..] + "\n"]
  }

  lemma LineThrough(s: Stream, line: bytes)
    requires s.pending == [] && '\n' !in line && |line| <= LONGEST
    ensures Cuts(LineReads(line), line + "\n")
    ensures FeedAll(s, LineReads(line)) == Feed(s, line + "\n")
  {
    hide Split, Blocks, CheckLines;
    var m := Head(line);
    var head, tail := line[..m], line[m..] + "\n";
    assert Flatten([tail]) == tail + Flatten([]);
    CutsCat(Blocks(head), head, [tail], tail);
    assert head + tail == line + "\n";
    assert s.pending + head == head;
    FeedHalf(s, Blocks(head));
    FeedAllCat(s, Blocks(head), [tail]);
    assert [tail][..0] == [];
    var half := s.(pending := head, stored := s.stored + |head|);
    assert FeedAll(half, [tail]) == Feed(half, tail);
    assert s.pending + (line + "\n") == line + "\n";
  }

  function AllReads(lines: seq<bytes>): seq<bytes> {
    if lines == [] then [] else AllReads(lines[..|lines| - 1]) + LineReads(lines[|lines| - 1])
  }

  lemma {:induction false} LinesThrough(lines: seq<bytes>)
    requires LinesUpTo(lines, LONGEST) && forall l :: l in lines ==> '\n' !in l
    ensures Cuts(AllReads(lines), Terminated(lines))
    ensures FeedAll(START, AllReads(lines)) == Feed(START, Terminated(lines))
    ensures FeedAll(START, AllReads(lines)).Ok? ==> FeedAll(START, AllReads(lines)).value.pending == []
  {
    hide Split, CheckLines, LineReads;
    if lines == [] {
      NoNewData(START);
    } else {
      var n := |lines| - 1;
      var before, line := lines[..n], lines[n];
      LinesThrough(before);
      assert before + [line] == lines;
      TerminatedCat(before, [line]);
      assert Terminated([line]) == line + "\n" + Terminated([]);
      assert Terminated(lines) == Terminated(before) + (line + "\n");
      FeedAllCat(START, AllReads(before), LineReads(line));
      assert START.pending + Terminated(lines) == Terminated(lines);
      assert Terminated(lines) + [] == Terminated(lines);
      SplitUnique(lines, []);
      assert START.pending + Terminated(before) == Terminated(before);
      assert Terminated(before) + [] == Terminated(before);
      SplitUnique(before, []);
      FeedTwo(START, Terminated(before), line + "\n");
      assert line in lines;
      LineThrough(NothingCarried(FeedAll(START, AllReads(before))), line);
      CutsCat(AllReads(before), Terminated(before), LineReads(line), line + "\n");
    }
  }

  function NothingCarried(r: Result<Stream>): (s: Stream)
    ensures r.Ok? && r.value.pending == [] ==> s == r.value
    ensures s.pending == []
  {
    if r.Ok? then r.value.(pending := []) else START
  }

  /** Exactly when some sequence of reads gets the data through: it is acceptable as a whole, and no
      line is too long for every sequence of reads. */
  lemma ReadableExact(data: bytes)
    ensures (exists chunks :: Cuts(chunks, data) && FeedAll(START, chunks).Ok?) <==>
              Feed(START, data).Ok? && LinesUpTo(Lines(data), LONGEST)
  {
    hide Split, CheckLines, Feed;
    if chunks :| Cuts(chunks, data) && FeedAll(START, chunks).Ok? {
      AcceptedIsWhole(START, chunks);
      AcceptedLinesFit(chunks);
    }
    if Feed(START, data).Ok? && LinesUpTo(Lines(data), LONGEST) {
      CarefulReads(data);
    }
  }

  lemma CarefulReads(data: bytes)
    requires Feed(START, data).Ok? && LinesUpTo(Lines(data), LONGEST)
    ensures var chunks := AllReads(Lines(data)) + Blocks(Rest(data));
            Cuts(chunks, data) && FeedAll(START, chunks).Ok?
  {
    hide Split, CheckLines, Blocks, AllReads;
    var lines, rest := Lines(data), Rest(data);
    SplitRebuilds(data);
    LinesThrough(lines);
    CutsCat(AllReads(lines), Terminated(lines), Blocks(rest), rest);
    FeedAllCat(START, AllReads(lines), Blocks(rest));
    assert START.pending + Terminated(lines) == Terminated(lines);
    assert Terminated(lines) + [] == Terminated(lines);
    SplitUnique(lines, []);
    FeedTwo(START, Terminated(lines), rest);
    assert START.pending + data == data;
    var s := FeedAll(START, AllReads(lines)).value;
    assert s.pending + rest == rest;
    FeedHalf(s, Blocks(rest));
  }

  /** Exactly when the sizes of the reads are irrelevant: the whole is rejected, or no line exceeds the
      limit, or some line is too long for every sequence of reads. */
  lemma ChunkingExact(data: bytes)
    ensures (forall c, d :: Cuts(c, data) && Cuts(d, data) ==> FeedAll(START, c) == FeedAll(START, d)) <==>
              Feed(START, data).Err? || Short(data) || !LinesUpTo(Lines(data), LONGEST)
  {
    hide CheckLines, Split, Feed, Short;
    if Feed(START, data).Err? || Short(data) || !LinesUpTo(Lines(data), LONGEST) {
      forall c, d | Cuts(c, data) && Cuts(d, data)
        ensures FeedAll(START, c) == FeedAll(START, d)
      {
        ReadableExact(data);
        AcceptedIsWhole(START, c);
        AcceptedIsWhole(START, d);
        assert START.pending + Flatten(c) == data && START.pending + Flatten(d) == data;
        if Short(data) {
          ShortIsWhole(START, c);
          ShortIsWhole(START, d);
        }
      }
    } else {
      ReadableExact(data);
      var c :| Cuts(c, data) && FeedAll(START, c).Ok?;
      var d := CarelessReads(data);
    }
  }

  /** A read that ends inside a long line, beyond the limit, gets the data rejected. */
  lemma CarelessReads(data: bytes) returns (d: seq<bytes>)
    requires Feed(START, data).Ok? && !Short(data)
    ensures Cuts(d, data) && FeedAll(START, d).Err?
  {
    hide CheckLines, Split, Blocks;
    assert START.pending + data == data;
    var k :| 0 <= k < |Lines(data)| && |Lines(data)[k]| > MAX_PENDING_BYTES;
    var a, b := CutInside(data, k);
    d := Blocks(a) + Blocks(b);
    CutsCat(Blocks(a), a, Blocks(b), b);
    FeedAllCat(START, Blocks(a), Blocks(b));
    if FeedAll(START, Blocks(a)).Ok? {
      AcceptedLinesFit(Blocks(a));
      CarriedAlways(START, Blocks(a));
      assert false;
    }
  }

  /** Cut the data right behind the long line `k`, before its newline. */
  lemma CutInside(data: bytes, k: nat) returns (a: bytes, b: bytes)
    requires k < |Lines(data)|
    ensures a + b == data && Rest(a) == Lines(data)[k]
  {
    SplitRebuilds(data);
    var lines := Lines(data);
    a := Terminated(lines[..k]) + lines[k];
    b := "\n" + Terminated(lines[k + 1..]) + Rest(data);
    assert lines == lines[..k] + [lines[k]] + lines[k + 1..];
    TerminatedCat(lines[..k] + [lines[k]], lines[k + 1..]);
    TerminatedCat(lines[..k], [lines[k]]);
    assert Terminated([lines[k]]) == lines[k] + "\n" + Terminated([]);
    SplitUnique(lines[..k], lines[k]);
  }
}
