/** One line of the load test: what the source emits and what the observers accept. */
module LogLine {
  import opened Results
  import opened Bytes

  const STAMP_BYTES: nat := 22

  function Field(raw: bytes, i: nat, n: nat): nat
    requires i + n <= |raw| && AllDigits(raw[i..i + n])
  {
    Value(raw[i..i + n])
  }

  /** The regular expression `^\[(\d{4}-\d{2}-\d{2} \d{2}:\d{2}:\d{2})\] `. */
  predicate StampShape(raw: bytes) {
    && |raw| >= STAMP_BYTES
    && raw[0] == '[' && AllDigits(raw[1..5]) && raw[5] == '-' && AllDigits(raw[6..8]) && raw[8] == '-'
    && AllDigits(raw[9..11]) && raw[11] == ' ' && AllDigits(raw[12..14]) && raw[14] == ':'
    && AllDigits(raw[15..17]) && raw[17] == ':' && AllDigits(raw[18..20]) && raw[20] == ']' && raw[21] == ' '
  }

  ghost predicate Digits(s: bytes, n: nat) {
    |s| == n && AllDigits(s)
  }

  ghost predicate ShapeText(raw: bytes, y: bytes, mo: bytes, d: bytes, h: bytes, mi: bytes, s: bytes) {
    && Digits(y, 4) && Digits(mo, 2) && Digits(d, 2) && Digits(h, 2) && Digits(mi, 2) && Digits(s, 2)
    && "[" + y + "-" + mo + "-" + d + " " + h + ":" + mi + ":" + s + "] " <= raw
  }

  /** Exactly the texts that begin with digits in these places. */
  lemma ShapeExact(raw: bytes)
    ensures StampShape(raw) <==> exists y, mo, d, h, mi, s :: ShapeText(raw, y, mo, d, h, mi, s)
  {
    if StampShape(raw) {
      assert raw[..22] == "[" + raw[1..5] + "-" + raw[6..8] + "-" + raw[9..11] + " " + raw[12..14] + ":" + raw[15..17] + ":"
                          + raw[18..20] + "] ";
      assert ShapeText(raw, raw[1..5], raw[6..8], raw[9..11], raw[12..14], raw[15..17], raw[18..20]);
    }
    if y, mo, d, h, mi, s :| ShapeText(raw, y, mo, d, h, mi, s) {
      Shaped(raw, y, mo, d, h, mi, s);
    }
  }

  lemma Shaped(raw: bytes, y: bytes, mo: bytes, d: bytes, h: bytes, mi: bytes, s: bytes)
    requires ShapeText(raw, y, mo, d, h, mi, s)
    ensures StampShape(raw)
  {
    var t := "[" + y + "-" + mo + "-" + d + " " + h + ":" + mi + ":" + s + "] ";
    assert t == raw[..22];
    assert raw[1..5] == t[1..5] == y && raw[6..8] == t[6..8] == mo && raw[9..11] == t[9..11] == d;
    assert raw[12..14] == t[12..14] == h && raw[15..17] == t[15..17] == mi && raw[18..20] == t[18..20] == s;
  }

  predicate Leap(year: nat) {
    year % 4 == 0 && (year % 100 != 0 || year % 400 == 0)
  }

  function DaysIn(year: nat, month: nat): nat {
    if month == 2 then (if Leap(year) then 29 else 28)
    else if month in {4, 6, 9, 11} then 30 else 31
  }

  /** The shape and `datetime.fromisoformat` both accept. */
  predicate Stamped(raw: bytes) {
    && StampShape(raw)
    && Field(raw, 1, 4) >= 1 && 1 <= Field(raw, 6, 2) <= 12
    && 1 <= Field(raw, 9, 2) <= DaysIn(Field(raw, 1, 4), Field(raw, 6, 2))
    && Field(raw, 12, 2) < 24 && Field(raw, 15, 2) < 60 && Field(raw, 18, 2) < 60
  }

  /** A second of the calendar. */
  predicate ValidTime(y: nat, mo: nat, d: nat, h: nat, mi: nat, s: nat) {
    1 <= y <= 9999 && 1 <= mo <= 12 && 1 <= d <= DaysIn(y, mo) && h <= 23 && mi <= 59 && s <= 59
  }

  /** The lengths of the months, and the century rule. */
  lemma MonthLengths(y: nat)
    ensures DaysIn(y, 1) == 31 && DaysIn(y, 3) == 31 && DaysIn(y, 4) == 30 && DaysIn(y, 5) == 31 && DaysIn(y, 6) == 30
    ensures DaysIn(y, 7) == 31 && DaysIn(y, 8) == 31 && DaysIn(y, 9) == 30 && DaysIn(y, 10) == 31 && DaysIn(y, 11) == 30
    ensures DaysIn(y, 12) == 31 && 28 <= DaysIn(y, 2) <= 29
    ensures y % 4 != 0 ==> DaysIn(y, 2) == 28
    ensures y % 4 == 0 && y % 100 != 0 ==> DaysIn(y, 2) == 29
    ensures y % 100 == 0 ==> (DaysIn(y, 2) == 29 <==> y % 400 == 0)
  {
  }

  function StampText(y: nat, mo: nat, d: nat, h: nat, mi: nat, s: nat): bytes {
    "[" + Padded(y, 4) + "-" + Padded(mo, 2) + "-" + Padded(d, 2) + " " + Padded(h, 2) + ":" + Padded(mi, 2) + ":" + Padded(s, 2) + "] "
  }

  /** A number of so many digits at most is written with exactly so many. */
  lemma PaddedIs(s: bytes, n: nat, width: nat)
    requires AllDigits(s) && |s| == width && Value(s) == n && width >= 1
    ensures Padded(n, width) == s
  {
    NumeralShort(s, n);
    ValueInjective(Padded(n, width), s);
  }

  lemma {:induction false} NumeralShort(s: bytes, n: nat)
    requires AllDigits(s) && s != [] && Value(s) == n
    ensures |Numeral(n)| <= |s|
  {
    LastDigit(s);
    if |s| == 1 {
      assert s[..0] == [];
      assert n < 10;
    } else if n >= 10 {
      NumeralShort(s[..|s| - 1], n / 10);
    }
  }

  /** Exactly the texts that begin with a written-out second of the calendar are stamped. */
  lemma StampExact(raw: bytes)
    ensures Stamped(raw) <==> exists y, mo, d, h, mi, s :: ValidTime(y, mo, d, h, mi, s) && StampText(y, mo, d, h, mi, s) <= raw
  {
    if Stamped(raw) {
      var y, mo, d := Field(raw, 1, 4), Field(raw, 6, 2), Field(raw, 9, 2);
      var h, mi, s := Field(raw, 12, 2), Field(raw, 15, 2), Field(raw, 18, 2);
      StampedWrites(raw, y, mo, d, h, mi, s);
      ValueBound(raw[1..5], 10000);
      assert ValidTime(y, mo, d, h, mi, s) && StampText(y, mo, d, h, mi, s) <= raw;
    }
    if y, mo, d, h, mi, s :| ValidTime(y, mo, d, h, mi, s) && StampText(y, mo, d, h, mi, s) <= raw {
      WrittenStamped(raw, y, mo, d, h, mi, s);
    }
  }

  lemma StampedWrites(raw: bytes, y: nat, mo: nat, d: nat, h: nat, mi: nat, s: nat)
    requires StampShape(raw)
    requires y == Field(raw, 1, 4) && mo == Field(raw, 6, 2) && d == Field(raw, 9, 2)
    requires h == Field(raw, 12, 2) && mi == Field(raw, 15, 2) && s == Field(raw, 18, 2)
    ensures StampText(y, mo, d, h, mi, s) == raw[..22]
  {
    hide Value, Padded, Numeral;
    PaddedIs(raw[1..5], y, 4);
    PaddedIs(raw[6..8], mo, 2);
    PaddedIs(raw[9..11], d, 2);
    PaddedIs(raw[12..14], h, 2);
    PaddedIs(raw[15..17], mi, 2);
    PaddedIs(raw[18..20], s, 2);
    assert raw[..22] == "[" + raw[1..5] + "-" + raw[6..8] + "-" + raw[9..11] + " " + raw[12..14] + ":" + raw[15..17] + ":"
                        + raw[18..20] + "] ";
  }

  lemma NumeralGrows(n: nat)
    ensures |Numeral(n)| == if n < 10 then 1 else |Numeral(n / 10)| + 1
  {
  }

  lemma WidthOf(n: nat, width: nat)
    requires (width == 2 && n < 100) || (width == 4 && n < 10000)
    ensures |Padded(n, width)| == width
  {
    hide Numeral, Value;
    NumeralGrows(n);
    NumeralGrows(n / 10);
    NumeralGrows(n / 10 / 10);
    NumeralGrows(n / 10 / 10 / 10);
  }

  lemma WrittenStamped(raw: bytes, y: nat, mo: nat, d: nat, h: nat, mi: nat, s: nat)
    requires ValidTime(y, mo, d, h, mi, s) && StampText(y, mo, d, h, mi, s) <= raw
    ensures Stamped(raw)
  {
    hide Value, Padded, Numeral;
    WidthOf(y, 4);
    WidthOf(mo, 2);
    WidthOf(d, 2);
    WidthOf(h, 2);
    WidthOf(mi, 2);
    WidthOf(s, 2);
    var t := StampText(y, mo, d, h, mi, s);
    assert |t| == 22 && t == raw[..22];
    assert raw[1..5] == t[1..5] == Padded(y, 4);
    assert raw[6..8] == t[6..8] == Padded(mo, 2);
    assert raw[9..11] == t[9..11] == Padded(d, 2);
    assert raw[12..14] == t[12..14] == Padded(h, 2);
    assert raw[15..17] == t[15..17] == Padded(mi, 2);
    assert raw[18..20] == t[18..20] == Padded(s, 2);
  }

  /** The device's own line behind the server's stamp. */
  function Body(raw: bytes): (body: bytes)
    requires |raw| >= STAMP_BYTES
    ensures |body| + STAMP_BYTES == |raw| + 1
  {
    raw[STAMP_BYTES..] + "\n"
  }

  /** The regular expression `^route=(\d+) seq=(\d+) ` and the two integers it captures. */
  function Header(body: bytes): (h: Option<(nat, nat)>) {
    if !("route=" <= body) then None else
    var i := DigitRun(body, 6);
    if i == 6 || !(" seq=" <= body[i..]) then None else
    var j := DigitRun(body, i + 5);
    if j == i + 5 || j == |body| || body[j] != ' ' then None else
    Some((Value(body[6..i]), Value(body[i + 5..j])))
  }

  /** The header matches exactly the texts written with two non-empty digit strings. */
  lemma HeaderExact(body: bytes)
    ensures Header(body).Some? <==>
              exists r: bytes, q: bytes :: HeaderText(body, r, q)
    ensures forall r: bytes, q: bytes :: HeaderText(body, r, q) ==> Header(body) == Some((Value(r), Value(q)))
  {
    if Header(body).Some? {
      var i := DigitRun(body, 6);
      var j := DigitRun(body, i + 5);
      assert body[i..][..5] == " seq=";
      assert HeaderText(body, body[6..i], body[i + 5..j]) by {
        assert body[..j + 1] == "route=" + body[6..i] + " seq=" + body[i + 5..j] + " " by {
          assert body[..6] == "route=";
          assert body[i..i + 5] == " seq=";
        }
      }
    }
    forall r: bytes, q: bytes | HeaderText(body, r, q)
      ensures Header(body) == Some((Value(r), Value(q)))
    {
      HeaderReads(body, r, q);
    }
  }

  ghost predicate HeaderText(body: bytes, r: bytes, q: bytes) {
    && r != [] && q != [] && AllDigits(r) && AllDigits(q)
    && "route=" + r + " seq=" + q + " " <= body
  }

  lemma HeaderReads(body: bytes, r: bytes, q: bytes)
    requires HeaderText(body, r, q)
    ensures Header(body) == Some((Value(r), Value(q)))
  {
    var i := 6 + |r|;
    var j := i + 5 + |q|;
    var h := "route=" + r + " seq=" + q + " ";
    assert forall k :: 0 <= k < |h| ==> body[k] == h[k];
    assert body[..6] == "route=";
    assert body[6..i] == r;
    assert body[i..][..5] == " seq=";
    assert body[i + 5..j] == q;
    assert body[i] == ' ' && body[j] == ' ';
    DigitRunIs(body, 6, i);
    DigitRunIs(body, i + 5, j);
  }

  // ----- the source ------------------------------------------------------------------------------

  function HexNumeral(n: nat): (s: bytes)
    ensures |s| >= 1 && '\n' !in s
  {
    var d := if n % 16 < 10 then ('0' as int + n % 16) as char else ('a' as int + n % 16 - 10) as char;
    if n < 16 then [d] else HexNumeral(n / 16) + [d]
  }

  function HexPadded(n: nat, width: nat): (s: bytes)
    ensures |s| >= 1 && '\n' !in s
  {
    var s := HexNumeral(n);
    if |s| >= width then s else Zeros(width - |s|) + s
  }

  function Repeat(token: bytes, k: nat): (s: bytes)
    ensures |s| == k * |token| && ('\n' !in token ==> '\n' !in s)
  {
    if k == 0 then [] else token + Repeat(token, k - 1)
  }

  lemma {:induction false} RepeatLonger(token: bytes, k: nat)
    ensures Repeat(token, k) <= Repeat(token, k + 1)
  {
    if k > 0 {
      RepeatLonger(token, k - 1);
      assert Repeat(token, k + 1) == token + Repeat(token, k);
    }
  }

  /** The filling begins with the token and repeats itself from there. */
  lemma FillAt(token: bytes, n: nat, i: nat)
    requires token != [] && i < n
    ensures Fill(token, n)[i] == if i < |token| then token[i] else Fill(token, n)[i - |token|]
  {
    EnoughCopies(n, |token|);
    var k := (n + |token| - 1) / |token|;
    assert k > 0;
    var all := Repeat(token, k);
    assert all == token + Repeat(token, k - 1);
    RepeatLonger(token, k - 1);
    if i >= |token| {
      assert Repeat(token, k - 1)[i - |token|] == all[i - |token|];
    }
  }

  function HexDigitValue(c: char): int {
    if '0' <= c <= '9' then c as int - '0' as int else c as int - 'a' as int + 10
  }

  function HexText(s: bytes): int {
    if s == [] then 0 else 16 * HexText(s[..|s| - 1]) + HexDigitValue(s[|s| - 1])
  }

  lemma {:induction false} HexReads(n: nat)
    ensures HexText(HexNumeral(n)) == n
  {
    if n >= 16 {
      HexReads(n / 16);
      assert HexNumeral(n)[..|HexNumeral(n)| - 1] == HexNumeral(n / 16);
    }
  }

  /** The token is reproducible from, and tells, the route and the sequence number in hexadecimal. */
  lemma {:induction false} HexPaddedReads(n: nat, width: nat)
    ensures HexText(HexPadded(n, width)) == n && |HexPadded(n, width)| >= width
  {
    HexReads(n);
    var s := HexNumeral(n);
    if |s| < width {
      HexZeros(width - |s|, s);
    }
  }

  lemma {:induction false} HexZeros(k: nat, s: bytes)
    ensures HexText(Zeros(k) + s) == HexText(s)
  {
    if s == [] {
      assert Zeros(k) + s == Zeros(k);
      HexZeroes(k);
    } else {
      HexZeros(k, s[..|s| - 1]);
      assert (Zeros(k) + s)[..k + |s| - 1] == Zeros(k) + s[..|s| - 1];
    }
  }

  lemma {:induction false} HexZeroes(k: nat)
    ensures HexText(Zeros(k)) == 0
  {
    AllZeros(k);
    if k > 0 {
      HexZeroes(k - 1);
    }
  }

  function Fill(token: bytes, n: nat): (s: bytes)
    requires |token| >= 1
    ensures |s| == n && ('\n' !in token ==> '\n' !in s)
  {
    EnoughCopies(n, |token|);
    Repeat(token, (n + |token| - 1) / |token|)[..n]
  }

  lemma EnoughCopies(need: nat, size: nat)
    requires size >= 1
    ensures need <= (need + size - 1) / size * size
  {
  }

  function LinePrefix(route: nat, sequence: nat): (s: bytes)
    ensures '\n' !in s
  {
    "route=" + Padded(route, 4) + " seq=" + Padded(sequence, 9) + " "
  }

  /** `LoadSource.line`: a fixed-width line, or an error when the width cannot hold the prefix. */
  function Line(route: nat, width: nat, sequence: nat): (r: Result<bytes>)
    ensures r.Ok? <==> width >= |LinePrefix(route, sequence)| + 1
    ensures r.Ok? ==> |r.value| == width && width >= 1 && r.value[width - 1] == '\n'
    ensures r.Ok? ==> forall k :: 0 <= k < width - 1 ==> r.value[k] != '\n'
  {
    var prefix := LinePrefix(route, sequence);
    if width < |prefix| + 1 then Err else
    var remaining := width - |prefix| - 1;
    Ok(prefix + Fill(HexPadded(route, 4) + HexPadded(sequence, 9), remaining) + "\n")
  }

  /** The whole line: the prefix, then the token over and over, then the newline. */
  lemma LineText(route: nat, width: nat, sequence: nat, i: nat)
    requires Line(route, width, sequence).Ok? && |LinePrefix(route, sequence)| <= i < width - 1
    ensures var token := HexPadded(route, 4) + HexPadded(sequence, 9);
            var line, at := Line(route, width, sequence).value, i - |LinePrefix(route, sequence)|;
            LinePrefix(route, sequence) <= line && line[i] == if at < |token| then token[at] else line[i - |token|]
  {
    hide Fill, HexPadded, LinePrefix;
    var prefix := LinePrefix(route, sequence);
    FillAt(HexPadded(route, 4) + HexPadded(sequence, 9), width - |prefix| - 1, i - |prefix|);
  }

  /** Whatever stamp the server puts in front, the observers read back route, sequence and body. */
  lemma LineReadsBack(route: nat, width: nat, sequence: nat, stamp: bytes)
    requires Line(route, width, sequence).Ok?
    requires |stamp| == STAMP_BYTES && Stamped(stamp)
    ensures var line := Line(route, width, sequence).value;
            var raw := stamp + line[..width - 1];
            Stamped(raw) && |raw| == STAMP_BYTES + width - 1 && Body(raw) == line && Header(line) == Some((route, sequence))
  {
    var line := Line(route, width, sequence).value;
    var raw := stamp + line[..width - 1];
    assert raw[..STAMP_BYTES] == stamp;
    StampedPrefix(stamp, raw);
    assert raw[STAMP_BYTES..] == line[..width - 1];
    assert line == line[..width - 1] + "\n";
    assert LinePrefix(route, sequence) <= line;
    HeaderReads(line, Padded(route, 4), Padded(sequence, 9));
  }

  lemma StampedPrefix(stamp: bytes, raw: bytes)
    requires |stamp| == STAMP_BYTES && stamp <= raw && Stamped(stamp)
    ensures Stamped(raw)
  {
    assert raw[1..5] == stamp[1..5] && raw[6..8] == stamp[6..8] && raw[9..11] == stamp[9..11];
    assert raw[12..14] == stamp[12..14] && raw[15..17] == stamp[15..17] && raw[18..20] == stamp[18..20];
  }

  lemma StampUnbroken(stamp: bytes)
    requires |stamp| == STAMP_BYTES && Stamped(stamp)
    ensures '\n' !in stamp
  {
    forall k | 0 <= k < |stamp|
      ensures stamp[k] != '\n'
    {
      assert 1 <= k < 5 ==> stamp[k] == stamp[1..5][k - 1];
      assert 6 <= k < 8 ==> stamp[k] == stamp[6..8][k - 6];
      assert 9 <= k < 11 ==> stamp[k] == stamp[9..11][k - 9];
      assert 12 <= k < 14 ==> stamp[k] == stamp[12..14][k - 12];
      assert 15 <= k < 17 ==> stamp[k] == stamp[15..17][k - 15];
      assert 18 <= k < 20 ==> stamp[k] == stamp[18..20][k - 18];
    }
  }

  // ----- one observed line of one source ----------------------------------------------------------

  /** `_complete_line`: stamped, of this route, next in sequence, and of the configured width. */
  predicate CompleteLine(raw: bytes, route: nat, width: nat, sequence: nat): (ok: bool)
    ensures ok ==> |raw| >= STAMP_BYTES
  {
    Stamped(raw) && Header(Body(raw)) == Some((route, sequence)) && |Body(raw)| == width
  }

  /** The text begins with a second of the calendar. */
  ghost predicate BeginsWithTime(raw: bytes) {
    exists y, mo, d, h, mi, s :: ValidTime(y, mo, d, h, mi, s) && StampText(y, mo, d, h, mi, s) <= raw
  }

  /** The text goes on behind its stamp with this route and sequence number. */
  ghost predicate Announces(body: bytes, route: nat, sequence: nat) {
    exists r, q :: HeaderText(body, r, q) && Value(r) == route && Value(q) == sequence
  }

  lemma AnnouncesExact(body: bytes, route: nat, sequence: nat)
    ensures Announces(body, route, sequence) <==> Header(body) == Some((route, sequence))
  {
    hide Value, Header;
    HeaderExact(body);
    if Header(body) == Some((route, sequence)) {
      var r, q :| HeaderText(body, r, q);
      assert HeaderText(body, r, q) && Value(r) == route && Value(q) == sequence;
    }
  }

  /** Spelled out. */
  lemma CompleteExact(raw: bytes, route: nat, width: nat, sequence: nat)
    ensures CompleteLine(raw, route, width, sequence) <==>
              BeginsWithTime(raw) && |raw| + 1 == width + 22 && Announces(raw[22..] + "\n", route, sequence)
  {
    hide Header, Stamped, StampText;
    StampExact(raw);
    StampLong(raw);
    if |raw| >= STAMP_BYTES {
      AnnouncesExact(Body(raw), route, sequence);
    }
  }

  lemma StampLong(raw: bytes)
    ensures Stamped(raw) ==> |raw| >= 22
  {
  }

  /** The lines are complete and numbered from zero. */
  predicate CompleteLines(raws: seq<bytes>, route: nat, width: nat) {
    forall k :: 0 <= k < |raws| ==> CompleteLine(raws[k], route, width, k)
  }

  /** The device's text behind the stamps. */
  function Bodies(raws: seq<bytes>): bytes
    requires forall k :: 0 <= k < |raws| ==> |raws[k]| >= STAMP_BYTES
  {
    if raws == [] then [] else Bodies(raws[..|raws| - 1]) + Body(raws[|raws| - 1])
  }
}
