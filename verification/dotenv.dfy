/** The cross-host deployment file: Compose dotenv text, its reader, and the one-value writer. */
module Dotenv {
  import opened Results
  import opened Bytes

  // ----- JSON quoting (section 7 of RFC 8259) and the reader's unescaping -------------------------

  function HexDigit(d: nat): char
    requires d < 16
  {
    if d < 10 then '0' + d as char else 'a' + (d - 10) as char
  }

  function Unit(n: nat): (s: string)
    requires n < 0x1_0000
    ensures forall c :: c in s ==> ' ' <= c <= '~'
    ensures |s| == 6 && s[0] == '\\' && s[1] == 'u' && forall k :: 1 <= k < 6 ==> s[k] != '\\' && s[k] != '\"'
  {
    "\\u" + [HexDigit(n / 4096), HexDigit(n / 256 % 16), HexDigit(n / 16 % 16), HexDigit(n % 16)]
  }

  /** One character of `json.dumps(…, ensure_ascii=True)`. */
  function Escape(c: char): (s: string)
    ensures |s| >= 1
  {
    if c == '\"' then "\\\"" else if c == '\\' then "\\\\"
    else if c == '\n' then "\\n" else if c == '\r' then "\\r" else if c == '\t' then "\\t"
    else if c == 8 as char then "\\b" else if c == 12 as char then "\\f"
    else if ' ' <= c <= '~' then [c]
    else if c as int < 0x1_0000 then Unit(c as int)
    else var n := c as int - 0x1_0000; Unit(0xD800 + n / 0x400) + Unit(0xDC00 + n % 0x400)
  }

  function Escaped(s: string): string {
    if s == "" then "" else Escape(s[0]) + Escaped(s[1..])
  }

  function Quoted(s: string): string {
    "\"" + Escaped(s) + "\""
  }

  /** The escapes the reader expands inside double quotes. */
  function Named(c: char): (r: Option<char>)
    ensures r.Some? <==> c in "nrt\\\""
  {
    if c == 'n' then Some('\n') else if c == 'r' then Some('\r') else if c == 't' then Some('\t')
    else if c == '\\' || c == '\"' then Some(c) else None
  }

  function Decoded(s: string): string {
    if s == "" then ""
    else if s[0] == '\\' && |s| > 1 && Named(s[1]).Some? then [Named(s[1]).value] + Decoded(s[2..])
    else [s[0]] + Decoded(s[1..])
  }

  /** `_decode_double_quoted`. */
  method DecodeDoubleQuoted(value: string) returns (output: string)
    ensures output == Decoded(value)
  {
    hide Decoded, Named;
    output := "";
    var index := 0;
    assert value[0..] == value;
    while index < |value|
      invariant index <= |value| && output + Decoded(value[index..]) == Decoded(value)
    {
      DecodedFrom(value, index);
      if value[index] == '\\' && index + 1 < |value| && Named(value[index + 1]).Some? {
        output := output + [Named(value[index + 1]).value];
        index := index + 2;
      } else {
        output := output + [value[index]];
        index := index + 1;
      }
    }
    assert value[index..] == "";
    DecodedEmpty();
  }

  lemma DecodedEmpty()
    ensures Decoded("") == ""
  {
  }

  /** One turn of the loop. */
  lemma DecodedFrom(value: string, i: nat)
    requires i < |value|
    ensures Decoded(value[i..]) ==
              if value[i] == '\\' && i + 1 < |value| && Named(value[i + 1]).Some?
              then [Named(value[i + 1]).value] + Decoded(value[i + 2..]) else [value[i]] + Decoded(value[i + 1..])
  {
    hide Named;
    var rest := value[i..];
    assert rest[0] == value[i] && rest[1..] == value[i + 1..];
    if |rest| > 1 {
      assert rest[1] == value[i + 1] && rest[2..] == value[i + 2..];
    }
  }

  /** What quoting turns into something the reader does not undo. */
  predicate Plain(c: char) {
    ' ' <= c <= '~' || c == '\n' || c == '\r' || c == '\t'
  }

  predicate AllPlain(s: string) {
    forall c :: c in s ==> Plain(c)
  }

  /** How a value reads after it was quoted and decoded. */
  function Spelled(s: string): string {
    if s == "" then "" else (if Plain(s[0]) then [s[0]] else Escape(s[0])) + Spelled(s[1..])
  }

  lemma {:induction false} DecodeLiteral(head: string, rest: string)
    requires '\\' !in head
    ensures Decoded(head + rest) == head + Decoded(rest)
  {
    if head == "" {
      assert head + rest == rest;
    } else {
      assert (head + rest)[0] == head[0] && (head + rest)[1..] == head[1..] + rest;
      DecodeLiteral(head[1..], rest);
    }
  }

  lemma DecodeUnit(n: nat, rest: string)
    requires n < 0x1_0000
    ensures Decoded(Unit(n) + rest) == Unit(n) + Decoded(rest)
  {
    var u := Unit(n);
    assert (u + rest)[0] == '\\' && (u + rest)[1] == 'u' && (u + rest)[1..] == u[1..] + rest;
    DecodeLiteral(u[1..], rest);
    assert ['\\'] + (u[1..] + Decoded(rest)) == u + Decoded(rest);
  }

  lemma DecodeNamed(c: char, rest: string)
    requires Named(c).Some?
    ensures Decoded(['\\', c] + rest) == [Named(c).value] + Decoded(rest)
  {
    assert (['\\', c] + rest)[2..] == rest;
  }

  lemma DecodeUnnamed(c: char, rest: string)
    requires Named(c).None?
    ensures Decoded(['\\', c] + rest) == ['\\', c] + Decoded(rest)
  {
    assert (['\\', c] + rest)[1..] == [c] + rest;
    DecodeLiteral([c], rest);
    assert ['\\'] + ([c] + Decoded(rest)) == ['\\', c] + Decoded(rest);
  }

  lemma DecodeEscape(c: char, rest: string)
    ensures Decoded(Escape(c) + rest) == (if Plain(c) then [c] else Escape(c)) + Decoded(rest)
  {
    hide Decoded, Unit, Named;
    var e := Escape(c);
    if |e| == 1 {
      DecodeLiteral(e, rest);
    } else if c in "\"\\\n\r\t" {
      assert Named(e[1]) == Some(c) by {
        EscapeNamed(c);
      }
      DecodeNamed(e[1], rest);
      assert e == ['\\', e[1]];
    } else if c == 8 as char || c == 12 as char {
      assert Named(e[1]).None? by {
        EscapeNamed(c);
      }
      DecodeUnnamed(e[1], rest);
      assert e == ['\\', e[1]];
    } else if c as int < 0x1_0000 {
      DecodeUnit(c as int, rest);
    } else {
      var n := c as int - 0x1_0000;
      DecodePair(0xD800 + n / 0x400, 0xDC00 + n % 0x400, rest);
    }
  }

  lemma EscapeNamed(c: char)
    requires c in "\"\\\n\r\t" || c == 8 as char || c == 12 as char
    ensures |Escape(c)| == 2
    ensures c in "\"\\\n\r\t" ==> Named(Escape(c)[1]) == Some(c)
    ensures c !in "\"\\\n\r\t" ==> Named(Escape(c)[1]).None?
  {
  }

  lemma DecodePair(high: nat, low: nat, rest: string)
    requires high < 0x1_0000 && low < 0x1_0000
    ensures Decoded(Unit(high) + Unit(low) + rest) == Unit(high) + Unit(low) + Decoded(rest)
  {
    hide Decoded, Unit;
    DecodeUnit(low, rest);
    DecodeUnit(high, Unit(low) + rest);
    assert Unit(high) + Unit(low) + rest == Unit(high) + (Unit(low) + rest);
    assert Unit(high) + Unit(low) + Decoded(rest) == Unit(high) + (Unit(low) + Decoded(rest));
  }

  lemma {:induction false} DecodeQuoted(s: string)
    ensures Decoded(Escaped(s)) == Spelled(s)
  {
    if s != "" {
      DecodeQuoted(s[1..]);
      DecodeEscape(s[0], Escaped(s[1..]));
    }
  }

  lemma {:induction false} SpelledLength(s: string)
    ensures |Spelled(s)| >= |s|
    ensures |Spelled(s)| == |s| <==> AllPlain(s)
    ensures AllPlain(s) ==> Spelled(s) == s
  {
    if s != "" {
      SpelledLength(s[1..]);
      assert AllPlain(s) <==> Plain(s[0]) && AllPlain(s[1..]) by {
        assert s == [s[0]] + s[1..];
      }
      assert !Plain(s[0]) ==> |Escape(s[0])| >= 2;
    }
  }

  /** Quoting is undone exactly on printable ASCII, newline, carriage return and tab: everything else
      is quoted as an escape the reader leaves as it stands. */
  lemma QuoteDecodes(s: string)
    ensures Decoded(Escaped(s)) == s <==> AllPlain(s)
  {
    DecodeQuoted(s);
    SpelledLength(s);
  }

  lemma EscapePrintable(c: char)
    ensures forall x :: x in Escape(c) ==> ' ' <= x <= '~'
  {
    hide Unit;
  }

  lemma {:induction false} EscapedPrintable(s: string)
    ensures forall c :: c in Escaped(s) ==> ' ' <= c <= '~'
  {
    hide Escape;
    if s != "" {
      EscapePrintable(s[0]);
      EscapedPrintable(s[1..]);
    }
  }

  function DecodedSingle(s: string): string {
    if s == "" then ""
    else if s[0] == '\\' && |s| > 1 && s[1] in "\\'" then [s[1]] + DecodedSingle(s[2..])
    else [s[0]] + DecodedSingle(s[1..])
  }

  /** `_decode_single_quoted`. */
  method DecodeSingleQuoted(value: string) returns (output: string)
    ensures output == DecodedSingle(value)
  {
    hide DecodedSingle;
    output := "";
    var index := 0;
    assert value[0..] == value;
    while index < |value|
      invariant index <= |value| && output + DecodedSingle(value[index..]) == DecodedSingle(value)
    {
      DecodedSingleFrom(value, index);
      if value[index] == '\\' && index + 1 < |value| && value[index + 1] in "\\'" {
        output := output + [value[index + 1]];
        index := index + 2;
      } else {
        output := output + [value[index]];
        index := index + 1;
      }
    }
    assert value[index..] == "";
    DecodedSingleEmpty();
  }

  lemma DecodedSingleEmpty()
    ensures DecodedSingle("") == ""
  {
  }

  /** One turn of the loop. */
  lemma DecodedSingleFrom(value: string, i: nat)
    requires i < |value|
    ensures DecodedSingle(value[i..]) ==
              if value[i] == '\\' && i + 1 < |value| && value[i + 1] in "\\'"
              then [value[i + 1]] + DecodedSingle(value[i + 2..]) else [value[i]] + DecodedSingle(value[i + 1..])
  {
    var rest := value[i..];
    assert rest[0] == value[i] && rest[1..] == value[i + 1..];
    if |rest| > 1 {
      assert rest[1] == value[i + 1] && rest[2..] == value[i + 2..];
    }
  }

  /** Backslashes and single quotes behind a backslash each, everything else as it is. */
  function EscapedSingle(s: string): string {
    if s == "" then "" else (if s[0] in "\\'" then ['\\', s[0]] else [s[0]]) + EscapedSingle(s[1..])
  }

  /** A value escaped for single quotes reads back as the value, whatever it holds. */
  lemma {:induction false} SingleDecodes(s: string)
    ensures DecodedSingle(EscapedSingle(s)) == s
  {
    if s != "" {
      SingleDecodes(s[1..]);
      var rest := EscapedSingle(s[1..]);
      var e := EscapedSingle(s);
      if s[0] in "\\'" {
        assert e[2..] == rest && e[0] == '\\' && e[1] == s[0];
      } else {
        assert e[1..] == rest && e[0] == s[0];
      }
      assert [s[0]] + s[1..] == s;
    }
  }

  // ----- text, lines, assignments -----------------------------------------------------------------

  /** Characters at which `str.splitlines` breaks. */
  predicate Break(c: char) {
    var n := c as int;
    0x0A <= n <= 0x0D || 0x1C <= n <= 0x1E || n == 0x85 || n == 0x2028 || n == 0x2029
  }

  /** `str.isspace`, which is also what `\s` matches. */
  predicate Space(c: char) {
    var n := c as int;
    || 0x09 <= n <= 0x0D || 0x1C <= n <= 0x20 || n == 0x85 || n == 0xA0 || n == 0x1680
    || 0x2000 <= n <= 0x200A || n == 0x2028 || n == 0x2029 || n == 0x202F || n == 0x205F || n == 0x3000
  }

  predicate Unbroken(s: string) {
    forall c :: c in s ==> !Break(c)
  }

  /** Reading in text mode: every `\r\n` and every lone `\r` becomes `\n`. */
  function Universal(s: string): string {
    if s == "" then ""
    else if s[0] == '\r' then "\n" + Universal(if |s| > 1 && s[1] == '\n' then s[2..] else s[1..])
    else [s[0]] + Universal(s[1..])
  }

  function BreakAt(s: string): (i: nat)
    ensures i <= |s| && (i < |s| ==> Break(s[i]))
    ensures forall k :: 0 <= k < i ==> !Break(s[k])
  {
    if s == "" || Break(s[0]) then 0 else 1 + BreakAt(s[1..])
  }

  /** `str.splitlines` on text that holds no carriage return. */
  function SplitLines(s: string): (lines: seq<string>)
    ensures forall l :: l in lines ==> Unbroken(l)
  {
    if s == "" then [] else
    var i := BreakAt(s);
    [s[..i]] + if i == |s| then [] else SplitLines(s[i + 1..])
  }

  function Joined(lines: seq<string>): string {
    if lines == [] then "" else lines[0] + "\n" + Joined(lines[1..])
  }

  lemma {:induction false} UniversalFixed(s: string)
    requires '\r' !in s
    ensures Universal(s) == s
  {
    if s != "" {
      UniversalFixed(s[1..]);
    }
  }

  lemma {:induction false} JoinedNoReturn(lines: seq<string>)
    requires forall l :: l in lines ==> Unbroken(l)
    ensures '\r' !in Joined(lines)
  {
    if lines != [] {
      assert lines[0] in lines;
      JoinedNoReturn(lines[1..]);
    }
  }

  lemma BreakAfter(head: string, tail: string)
    requires Unbroken(head)
    ensures BreakAt(head + "\n" + tail) == |head|
  {
    var s := head + "\n" + tail;
    assert s[|head|] == '\n';
    forall k | 0 <= k < |head|
      ensures !Break(s[k])
    {
      assert s[k] == head[k] && head[k] in head;
    }
  }

  /** What the writer writes, the reader splits back into the same lines. */
  lemma {:induction false} LinesReadBack(lines: seq<string>)
    requires forall l :: l in lines ==> Unbroken(l)
    ensures SplitLines(Universal(Joined(lines))) == lines
  {
    JoinedNoReturn(lines);
    UniversalFixed(Joined(lines));
    if lines != [] {
      assert lines[0] in lines;
      var s := Joined(lines);
      BreakAfter(lines[0], Joined(lines[1..]));
      assert s[..|lines[0]|] == lines[0] && s[|lines[0]| + 1..] == Joined(lines[1..]);
      LinesReadBack(lines[1..]);
      JoinedNoReturn(lines[1..]);
      UniversalFixed(Joined(lines[1..]));
    }
  }

  function LeftStrip(s: string): (r: string)
    ensures r != "" ==> !Space(r[0])
    ensures |r| <= |s|
  {
    if s != "" && Space(s[0]) then LeftStrip(s[1..]) else s
  }

  function RightStrip(s: string): (r: string)
    ensures r != "" ==> !Space(r[|r| - 1])
    ensures r <= s
  {
    if s != "" && Space(s[|s| - 1]) then RightStrip(s[..|s| - 1]) else s
  }

  function Strip(s: string): string {
    RightStrip(LeftStrip(s))
  }

  predicate NameStart(c: char) {
    'A' <= c <= 'Z' || 'a' <= c <= 'z' || c == '_'
  }

  predicate NameChar(c: char) {
    NameStart(c) || '0' <= c <= '9'
  }

  predicate Name(s: string) {
    s != "" && NameStart(s[0]) && forall c :: c in s ==> NameChar(c)
  }

  function NameRun(s: string): (i: nat)
    ensures i <= |s| && (i < |s| ==> !NameChar(s[i]))
    ensures forall k :: 0 <= k < i ==> NameChar(s[k])
  {
    if s == "" || !NameChar(s[0]) then 0 else 1 + NameRun(s[1..])
  }

  function BlankRun(s: string): (i: nat)
    ensures i <= |s| && (i < |s| ==> s[i] !in " \t")
    ensures forall k :: 0 <= k < i ==> s[k] in " \t"
  {
    if s == "" || s[0] !in " \t" then 0 else 1 + BlankRun(s[1..])
  }

  datatype Pair = Pair(key: string, value: string)

  /** `([A-Za-z_][A-Za-z0-9_]*)[ \t]*=(.*)`, whole line.  Neither repetition can stop early, because
      what follows it is not in its class. */
  function Assignment(s: string): (r: Option<Pair>)
    ensures r.Some? ==> s != "" && NameStart(s[0]) && Name(r.value.key)
  {
    var i := NameRun(s);
    if i == 0 || !NameStart(s[0]) then None else
    var j := i + BlankRun(s[i..]);
    if j == |s| || s[j] != '=' then None else Some(Pair(s[..i], s[j + 1..]))
  }

  /** The same behind an optional `export` and blanks; the bare reading is the fallback. */
  function Matched(s: string): (r: Option<Pair>)
    ensures r.Some? ==> s != "" && NameStart(s[0]) && Name(r.value.key)
  {
    var blanks := if "export" <= s then BlankRun(s[6..]) else 0;
    if blanks > 0 && Assignment(s[6 + blanks..]).Some? then Assignment(s[6 + blanks..]) else Assignment(s)
  }

  /** The line is `key`, blanks, `=`, `value`; or that behind `export` and blanks. */
  ghost predicate AssignmentText(s: string, key: string, blanks: string, value: string) {
    Name(key) && (forall c :: c in blanks ==> c in " \t") && s == key + blanks + "=" + value
  }

  ghost predicate ExportText(s: string, gap: string, rest: string) {
    gap != "" && (forall c :: c in gap ==> c in " \t") && s == "export" + gap + rest
  }

  lemma RunIs(s: string, n: nat)
    requires n < |s| && !NameChar(s[n]) && forall k :: 0 <= k < n ==> NameChar(s[k])
    ensures NameRun(s) == n
  {
  }

  lemma BlanksAre(s: string, n: nat)
    requires n <= |s| && (n < |s| ==> s[n] !in " \t") && forall k :: 0 <= k < n ==> s[k] in " \t"
    ensures BlankRun(s) == n
  {
  }

  /** Which texts are assignments, and of what. */
  lemma AssignmentExact(s: string)
    ensures Assignment(s).Some? <==> exists key, blanks, value :: AssignmentText(s, key, blanks, value)
    ensures forall key, blanks, value :: AssignmentText(s, key, blanks, value) ==> Assignment(s) == Some(Pair(key, value))
  {
    forall key, blanks, value | AssignmentText(s, key, blanks, value)
      ensures Assignment(s) == Some(Pair(key, value))
    {
      AssignmentReads(s, key, blanks, value);
    }
    if Assignment(s).Some? {
      AssignmentFound(s);
    }
  }

  lemma AssignmentReads(s: string, key: string, blanks: string, value: string)
    requires AssignmentText(s, key, blanks, value)
    ensures Assignment(s) == Some(Pair(key, value))
  {
    hide NameRun, BlankRun;
    forall k | 0 <= k < |key|
      ensures NameChar(s[k])
    {
      assert s[k] == key[k] && key[k] in key;
    }
    assert s[|key|] == (blanks + "=")[0];
    assert blanks != "" ==> blanks[0] in blanks;
    RunIs(s, |key|);
    var rest := s[|key|..];
    assert rest == blanks + "=" + value;
    forall k | 0 <= k < |blanks|
      ensures rest[k] in " \t"
    {
      assert rest[k] == blanks[k] && blanks[k] in blanks;
    }
    BlanksAre(rest, |blanks|);
    assert key[0] in key && s[0] == key[0];
    assert s[..|key|] == key && s[|key| + |blanks| + 1..] == value;
  }

  lemma AssignmentFound(s: string)
    requires Assignment(s).Some?
    ensures exists key, blanks, value :: AssignmentText(s, key, blanks, value)
  {
    var i := NameRun(s);
    var n := BlankRun(s[i..]);
    var blanks := s[i..][..n];
    assert forall c :: c in blanks ==> c in " \t";
    assert s == s[..i] + blanks + "=" + s[i + n + 1..];
    assert AssignmentText(s, s[..i], blanks, s[i + n + 1..]);
  }

  /** `export` in front changes nothing. */
  lemma ExportReads(s: string, gap: string, rest: string)
    requires ExportText(s, gap, rest) && Assignment(rest).Some?
    ensures Matched(s) == Assignment(rest)
  {
    hide Assignment, BlankRun;
    assert rest != "" && NameStart(rest[0]);
    var tail := s[6..];
    assert tail == gap + rest;
    forall k | 0 <= k < |gap|
      ensures tail[k] in " \t"
    {
      assert tail[k] == gap[k] && gap[k] in gap;
    }
    BlanksAre(tail, |gap|);
    assert s[6 + |gap|..] == rest;
  }

  /** Which lines the reader and the writer take for assignments: the plain ones and the exported ones. */
  lemma MatchedExact(s: string)
    ensures Matched(s).Some? <==>
              Assignment(s).Some? || exists gap, rest :: ExportText(s, gap, rest) && Assignment(rest).Some?
    ensures Matched(s).Some? ==> Matched(s) == Assignment(s) || exists gap, rest :: ExportText(s, gap, rest) && Matched(s) == Assignment(rest)
  {
    hide Assignment, BlankRun;
    if gap, rest :| ExportText(s, gap, rest) && Assignment(rest).Some? {
      ExportReads(s, gap, rest);
    }
    if Matched(s).Some? && Matched(s) != Assignment(s) {
      var n := BlankRun(s[6..]);
      var gap, rest := s[6..][..n], s[6 + n..];
      assert s[..6] == "export";
      assert s == "export" + gap + rest;
      assert ExportText(s, gap, rest) && Matched(s) == Assignment(rest);
    }
  }

  /** A value that needs no quotes: no outer white space, no quote in front, no `#` behind white space. */
  predicate Bare(s: string) {
    && (s == "" || (!Space(s[0]) && !Space(s[|s| - 1]) && s[0] !in "'\""))
    && forall k :: 0 < k < |s| ==> !(s[k] == '#' && Space(s[k - 1]))
  }

  lemma {:induction false} NoComment(s: string, k: nat)
    requires 1 <= k && forall j :: k <= j < |s| ==> !(s[j] == '#' && Space(s[j - 1]))
    ensures CommentAt(s, k) == |s|
    decreases |s| - k
  {
    if k < |s| {
      NoComment(s, k + 1);
    }
  }

  lemma {:induction false} CommentFound(s: string, k: nat, n: nat)
    requires 1 <= k <= n < |s| && s[n] == '#' && Space(s[n - 1])
    requires forall j :: k <= j < n ==> !(s[j] == '#' && Space(s[j - 1]))
    ensures CommentAt(s, k) == n
    decreases n - k
  {
    if k < n {
      CommentFound(s, k + 1, n);
    }
  }

  /** An unquoted value stands for itself. */
  lemma BareReads(s: string)
    requires Bare(s)
    ensures ReadValue(s) == Ok(s)
  {
    if s == "" {
      assert Strip(s) == "";
    } else {
      StripFixed(s);
    }
    NoComment(s, 1);
    assert s[..|s|] == s;
  }

  /** And a comment behind it, set off by white space, is cut away. */
  lemma CommentCut(s: string, gap: string, comment: string)
    requires Bare(s) && s != "" && gap != "" && (forall c :: c in gap ==> Space(c))
    requires comment == "" || !Space(comment[|comment| - 1])
    ensures ReadValue(s + gap + "#" + comment) == Ok(s)
  {
    var whole := s + gap + "#" + comment;
    StripFixed(whole);
    var n := |s| + |gap|;
    forall k | 1 <= k < n
      ensures !(whole[k] == '#' && Space(whole[k - 1]))
    {
      if k < |s| {
        assert whole[k] == s[k] && whole[k - 1] == s[k - 1];
      } else {
        assert whole[k] == gap[k - |s|] && gap[k - |s|] in gap;
      }
    }
    assert whole[n - 1] == gap[|gap| - 1] && gap[|gap| - 1] in gap;
    CommentFound(whole, 1, n);
    assert whole[..n] == s + gap;
    GapStripped(s, gap);
  }

  lemma {:induction false} GapStripped(s: string, gap: string)
    requires s != "" && !Space(s[|s| - 1]) && forall c :: c in gap ==> Space(c)
    ensures RightStrip(s + gap) == s
  {
    if gap == "" {
      assert s + gap == s;
    } else {
      var n := |gap| - 1;
      assert gap[n] in gap;
      assert (s + gap)[..|s + gap| - 1] == s + gap[..n];
      GapStripped(s, gap[..n]);
    }
  }

  /** Lines end at every break and at nothing else. */
  lemma LinesSplitAt(head: string, mark: char, tail: string)
    requires Unbroken(head) && Break(mark)
    ensures SplitLines(head + [mark] + tail) == [head] + SplitLines(tail)
  {
    var s := head + [mark] + tail;
    assert s[|head|] == mark;
    forall k | 0 <= k < |head|
      ensures !Break(s[k])
    {
      assert s[k] == head[k] && head[k] in head;
    }
    assert BreakAt(s) == |head|;
    assert s[..|head|] == head && s[|head| + 1..] == tail;
  }

  /** Where an unquoted value's trailing comment starts: a `#` behind white space. */
  function CommentAt(s: string, k: nat): (i: nat)
    requires 1 <= k
    ensures i <= |s|
    decreases |s| - k
  {
    if k >= |s| then |s| else if s[k] == '#' && Space(s[k - 1]) then k else CommentAt(s, k + 1)
  }

  /** A value as written to a value as read. */
  function ReadValue(written: string): Result<string> {
    var value := Strip(written);
    if value != "" && value[0] in "'\"" then
      if |value| < 2 || value[|value| - 1] != value[0] then Err else
      var inner := value[1..|value| - 1];
      Ok(if value[0] == '\"' then Decoded(inner) else DecodedSingle(inner))
    else
      Ok(RightStrip(value[..CommentAt(value, 1)]))
  }

  datatype Entry = Skipped | Malformed | Assign(key: string, value: string)

  function Parse(raw: string): Entry {
    var line := Strip(raw);
    if line == "" || line[0] == '#' then Skipped else
    match Matched(line)
    case None => Malformed
    case Some(p) => if ReadValue(p.value).Err? then Malformed else Assign(p.key, ReadValue(p.value).value)
  }

  /** The reader keeps the last assignment of a key. */
  function Environment(lines: seq<string>): Result<map<string, string>> {
    if lines == [] then Ok(map[]) else
    var before := Environment(lines[..|lines| - 1]);
    if before.Err? then Err else
    match Parse(lines[|lines| - 1])
    case Skipped => before
    case Malformed => Err
    case Assign(key, value) => Ok(before.value[key := value])
  }

  lemma {:induction false} MalformedStays(lines: seq<string>, n: nat)
    requires n <= |lines| && Environment(lines[..n]).Err?
    ensures Environment(lines).Err?
  {
    if n == |lines| {
      assert lines[..n] == lines;
    } else {
      assert lines[..|lines| - 1][..n] == lines[..n];
      MalformedStays(lines[..|lines| - 1], n);
    }
  }

  /** `read_environment`, on the lines of the file. */
  method ReadEnvironment(lines: seq<string>) returns (r: Result<map<string, string>>)
    ensures r == Environment(lines)
  {
    hide Strip, Matched, Decoded, DecodedSingle, RightStrip;
    var values: map<string, string> := map[];
    for number := 0 to |lines|
      invariant Environment(lines[..number]) == Ok(values)
    {
      assert lines[..number + 1][..number] == lines[..number];
      var line := Strip(lines[number]);
      if line == "" || line[0] == '#' {
        continue;
      }
      var matched := Matched(line);
      if matched.None? {
        MalformedStays(lines, number + 1);
        return Err;
      }
      var key, value := matched.value.key, Strip(matched.value.value);
      if value != "" && value[0] in "'\"" {
        if |value| < 2 || value[|value| - 1] != value[0] {
          MalformedStays(lines, number + 1);
          return Err;
        }
        if value[0] == '\"' {
          value := DecodeDoubleQuoted(value[1..|value| - 1]);
        } else {
          value := DecodeSingleQuoted(value[1..|value| - 1]);
        }
      } else {
        value := RightStrip(value[..CommentAt(value, 1)]);
      }
      values := values[key := value];
    }
    assert lines[..|lines|] == lines;
    return Ok(values);
  }

  // ----- replacing one value ----------------------------------------------------------------------

  function Rendered(key: string, value: string): string {
    key + "=" + Quoted(value)
  }

  /** The writer's idea of a line that sets the key. */
  predicate Sets(raw: string, key: string) {
    Matched(Strip(raw)).Some? && Matched(Strip(raw)).value.key == key
  }

  function FirstSet(lines: seq<string>, key: string): (i: nat)
    ensures i <= |lines| && (i < |lines| ==> Sets(lines[i], key))
    ensures forall k :: 0 <= k < i ==> !Sets(lines[k], key)
  {
    hide Sets;
    if lines == [] || Sets(lines[0], key) then 0 else 1 + FirstSet(lines[1..], key)
  }

  /** The writer replaces the first assignment of the key, or appends one. */
  function Replaced(lines: seq<string>, key: string, value: string): seq<string> {
    var i := FirstSet(lines, key);
    if i < |lines| then lines[i := Rendered(key, value)] else lines + [Rendered(key, value)]
  }

  predicate SetAfter(lines: seq<string>, i: nat, key: string) {
    exists k :: i < k < |lines| && Sets(lines[k], key)
  }

  /** The key is set more than once. */
  predicate SetAgain(lines: seq<string>, key: string) {
    SetAfter(lines, FirstSet(lines, key), key)
  }

  lemma StripFixed(s: string)
    requires s != "" && !Space(s[0]) && !Space(s[|s| - 1])
    ensures Strip(s) == s
  {
  }

  /** A rendered line is one line, sets its key, and reads as the value is spelled. */
  lemma RenderedReads(key: string, value: string)
    requires Name(key)
    ensures Unbroken(Rendered(key, value))
    ensures Sets(Rendered(key, value), key)
    ensures Parse(Rendered(key, value)) == Assign(key, Spelled(value))
  {
    hide Decoded, Spelled, Escaped, Matched, Strip, ReadValue;
    var line := Rendered(key, value);
    assert key[0] in key;
    assert line[0] == key[0] && line[|line| - 1] == '\"';
    StripFixed(line);
    RenderedMatches(key, Quoted(value));
    QuotedReads(value);
    EscapedPrintable(value);
    forall c | c in line
      ensures !Break(c)
    {
      assert c in key || c == '=' || c == '\"' || c in Escaped(value);
    }
  }

  lemma QuotedReads(value: string)
    ensures ReadValue(Quoted(value)) == Ok(Spelled(value))
  {
    hide Decoded, Spelled, Escaped, Strip;
    var quoted := Quoted(value);
    assert quoted[1..|quoted| - 1] == Escaped(value);
    StripFixed(quoted);
    DecodeQuoted(value);
  }

  /** The same for a whole value between single quotes. */
  lemma SingleReads(value: string)
    ensures ReadValue("'" + EscapedSingle(value) + "'") == Ok(value)
  {
    hide DecodedSingle, EscapedSingle, Strip;
    var quoted := "'" + EscapedSingle(value) + "'";
    assert quoted[1..|quoted| - 1] == EscapedSingle(value);
    StripFixed(quoted);
    SingleDecodes(value);
  }

  lemma RenderedAssigns(key: string, quoted: string)
    requires Name(key)
    ensures Assignment(key + "=" + quoted) == Some(Pair(key, quoted))
  {
    hide NameRun, BlankRun;
    var line := key + "=" + quoted;
    forall k | 0 <= k < |key|
      ensures NameChar(line[k])
    {
      assert line[k] == key[k] && key[k] in key;
    }
    RunIs(line, |key|);
    assert line[|key|..][0] == '=';
    assert line[..|key|] == key && line[|key| + 1..] == quoted;
  }

  lemma RenderedMatches(key: string, quoted: string)
    requires Name(key)
    ensures Matched(key + "=" + quoted) == Some(Pair(key, quoted))
  {
    hide Assignment, BlankRun;
    var line := key + "=" + quoted;
    RenderedAssigns(key, quoted);
    if "export" <= line {
      assert line[..6] == "export";
      assert forall k :: 0 <= k < 6 ==> line[k] != '=';
      assert |key| >= 6 && line[|key|] == '=';
      assert |key| > 6 ==> line[6] == key[6] && key[6] in key;
      assert line[6..][0] == line[6];
    }
  }

  lemma SetsAssigns(raw: string, key: string)
    requires !Parse(raw).Malformed?
    ensures Sets(raw, key) <==> Parse(raw).Assign? && Parse(raw).key == key
  {
    hide Strip, Matched, ReadValue;
  }

  lemma {:induction false} PatchedReads(lines: seq<string>, i: nat, key: string, value: string)
    requires i < |lines| && Sets(lines[i], key) && Name(key) && Environment(lines).Ok?
    ensures key in Environment(lines).value
    ensures Environment(lines[i := Rendered(key, value)]) == Ok(Environment(lines).value[key :=
              if SetAfter(lines, i, key) then Environment(lines).value[key] else Spelled(value)])
  {
    hide Parse, Sets, Spelled, Rendered, SetAfter;
    var n := |lines| - 1;
    var patched := lines[i := Rendered(key, value)];
    SetsAssigns(lines[n], key);
    if i == n {
      RenderedReads(key, value);
      assert !SetAfter(lines, i, key) by {
        NoneAfter(lines, key);
      }
      assert patched[..n] == lines[..n] && patched[n] == Rendered(key, value);
      var before := Environment(lines[..n]).value;
      assert Environment(patched) == Ok(before[key := Spelled(value)]);
      assert before[key := Parse(lines[n]).value][key := Spelled(value)] == before[key := Spelled(value)];
    } else {
      PatchedReads(lines[..n], i, key, value);
      assert patched[..n] == lines[..n][i := Rendered(key, value)];
      assert patched[n] == lines[n];
      AfterSnoc(lines, i, key);
      var before := Environment(lines[..n]).value;
      var kept := before[key := if SetAfter(lines[..n], i, key) then before[key] else Spelled(value)];
      assert Environment(patched[..n]) == Ok(kept);
      if Parse(lines[n]).Assign? {
        var Assign(k, v) := Parse(lines[n]);
        assert Environment(patched) == Ok(kept[k := v]);
        assert Environment(lines).value == before[k := v];
        if k != key {
          assert kept[k := v] == before[k := v][key := kept[key]];
        } else {
          assert kept[k := v] == before[k := v];
          assert before[k := v] == before[k := v][key := v];
        }
      }
    }
  }

  lemma NoneAfter(lines: seq<string>, key: string)
    requires lines != []
    ensures !SetAfter(lines, |lines| - 1, key)
  {
    hide Sets;
  }

  lemma AfterSnoc(lines: seq<string>, i: nat, key: string)
    requires i < |lines| - 1
    ensures SetAfter(lines, i, key) <==> Sets(lines[|lines| - 1], key) || SetAfter(lines[..|lines| - 1], i, key)
  {
    hide Sets;
    assert forall k :: 0 <= k < |lines| - 1 ==> lines[..|lines| - 1][k] == lines[k];
  }

  /** What reading after replacing gives, for every readable file.  No other key ever changes; the key
      itself reads as spelled unless a later line sets it again, in which case nothing changes. */
  lemma ReplaceReads(lines: seq<string>, key: string, value: string)
    requires Name(key) && Environment(lines).Ok?
    ensures SetAgain(lines, key) ==> key in Environment(lines).value
    ensures Environment(Replaced(lines, key, value)) == Ok(Environment(lines).value[key :=
              if SetAgain(lines, key) then Environment(lines).value[key] else Spelled(value)])
  {
    hide Parse, Sets, Spelled, Rendered;
    var i := FirstSet(lines, key);
    assert i == |lines| ==> !SetAgain(lines, key);
    if i < |lines| {
      PatchedReads(lines, i, key, value);
    } else {
      RenderedReads(key, value);
      var longer := Replaced(lines, key, value);
      assert longer[..|lines|] == lines;
    }
  }

  /** The writer and the reader agree on the new value exactly when every character survives quoting
      and the key is set once; if it is set again, only when the last setting was that value already. */
  lemma ReplaceExact(lines: seq<string>, key: string, value: string)
    requires Name(key) && Environment(lines).Ok?
    ensures SetAgain(lines, key) ==> key in Environment(lines).value
    ensures Environment(Replaced(lines, key, value)) == Ok(Environment(lines).value[key := value]) <==>
              if SetAgain(lines, key) then Environment(lines).value[key] == value else AllPlain(value)
  {
    ReplaceReads(lines, key, value);
    SpelledLength(value);
    var after, wanted := Environment(Replaced(lines, key, value)).value, Environment(lines).value[key := value];
    assert after == wanted ==> after[key] == wanted[key];
  }

  /** Writing again replaces the line written before: a file does not grow by being prepared twice. */
  lemma ReplaceTwice(lines: seq<string>, key: string, earlier: string, value: string)
    requires Name(key)
    ensures Replaced(Replaced(lines, key, earlier), key, value) == Replaced(lines, key, value)
  {
    hide Sets, Rendered;
    RenderedReads(key, earlier);
    var i := FirstSet(lines, key);
    var patched := Replaced(lines, key, earlier);
    assert FirstSet(patched, key) == i by {
      FirstSetIs(patched, key, i);
    }
  }

  lemma {:induction false} FirstSetIs(lines: seq<string>, key: string, i: nat)
    requires i < |lines| && Sets(lines[i], key) && forall k :: 0 <= k < i ==> !Sets(lines[k], key)
    ensures FirstSet(lines, key) == i
  {
    hide Sets;
    if i > 0 {
      FirstSetIs(lines[1..], key, i - 1);
    }
  }

  // ----- the file ---------------------------------------------------------------------------------

  /** The lines of a file's text. */
  function FileLines(text: string): (lines: seq<string>)
    ensures forall l :: l in lines ==> Unbroken(l)
  {
    SplitLines(Universal(text))
  }

  /** A configuration file beside the temporary name its writer uses. */
  class EnvFile {
    var text: string
    var symlink: bool
    var leftover: bool

    constructor (text: string, symlink: bool, leftover: bool)
      ensures this.text == text && this.symlink == symlink && this.leftover == leftover
    {
      this.text, this.symlink, this.leftover := text, symlink, leftover;
    }

    method Read() returns (r: Result<map<string, string>>)
      ensures r == Environment(FileLines(text))
    {
      r := ReadEnvironment(FileLines(text));
    }

    /** `_replace_value`: refuses a link and a leftover temporary file, and otherwise leaves exactly
        the replaced lines, so that the next read sees what `ReplaceExact` says. */
    method ReplaceValue(key: string, value: string) returns (ok: bool)
      requires Name(key)
      modifies this`text
      ensures ok <==> !symlink && !leftover
      ensures !ok ==> text == old(text)
      ensures ok ==> FileLines(text) == Replaced(FileLines(old(text)), key, value)
    {
      hide Sets, Rendered;
      if symlink {
        return false;
      }
      var lines := FileLines(text);
      var before := lines;
      var rendered := Rendered(key, value);
      var index := 0;
      while index < |lines| && !Sets(lines[index], key)
        invariant index <= |lines| && forall k :: 0 <= k < index ==> !Sets(lines[k], key)
      {
        index := index + 1;
      }
      if index < |lines| {
        lines := lines[index := rendered];
      } else {
        lines := lines + [rendered];
      }
      if leftover {
        return false;
      }
      text := Joined(lines);
      RenderedReads(key, value);
      ReplacedUnbroken(before, key, value);
      LinesReadBack(lines);
      return true;
    }
  }

  lemma ReplacedUnbroken(lines: seq<string>, key: string, value: string)
    requires Name(key) && forall l :: l in lines ==> Unbroken(l)
    ensures forall l :: l in Replaced(lines, key, value) ==> Unbroken(l)
  {
    hide Unbroken, Rendered, Sets;
    RenderedReads(key, value);
  }
}
