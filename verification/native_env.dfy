/** Native configuration: its grammar, the systemd environment printer, and the published-file reader. */
module NativeEnv {
  import opened Results
  import opened Bytes
  import opened Url
  import Percent
  import Dotenv

  // ----- JSON string literals (section 7 of RFC 8259) ---------------------------------------------

  /** Four hexadecimal digits. */
  function Unit(s: string): (r: Option<nat>)
    ensures r.Some? ==> |s| >= 4 && r.value < 0x1_0000
  {
    if |s| < 4 then None else
    var a, b, c, d := Percent.HexValue(s[0]), Percent.HexValue(s[1]), Percent.HexValue(s[2]), Percent.HexValue(s[3]);
    if a.None? || b.None? || c.None? || d.None? then None
    else Some(((a.value * 16 + b.value) * 16 + c.value) * 16 + d.value)
  }

  /** What stands behind a backslash: the character meant, and how much text it takes. */
  function EscapeAt(s: string): (r: Option<(char, nat)>)
    ensures r.Some? ==> 1 <= r.value.1 <= |s|
  {
    if s == "" then None
    else if s[0] in "\"\\/" then Some((s[0], 1))
    else if s[0] == 'b' then Some((8 as char, 1)) else if s[0] == 'f' then Some((12 as char, 1))
    else if s[0] == 'n' then Some(('\n', 1)) else if s[0] == 'r' then Some(('\r', 1))
    else if s[0] == 't' then Some(('\t', 1))
    else if s[0] != 'u' then None else
    var high := Unit(s[1..]);
    if high.None? then None
    else if !(0xD800 <= high.value <= 0xDFFF) then Some((high.value as char, 5))
    else if |s| < 7 || s[5] != '\\' || s[6] != 'u' then None else
    var low := Unit(s[7..]);
    if low.None? || high.value >= 0xDC00 || !(0xDC00 <= low.value <= 0xDFFF) then None
    else Some(((0x1_0000 + (high.value - 0xD800) * 0x400 + (low.value - 0xDC00)) as char, 11))
  }

  /** The rest of a string literal, from behind its opening quote: its value, and what follows it. */
  function Scan(s: string): Option<(string, string)>
    decreases |s|
  {
    if s == "" || s[0] < ' ' then None
    else if s[0] == '\"' then Some(("", s[1..]))
    else if s[0] == '\\' then
      var e := EscapeAt(s[1..]);
      if e.None? then None else
      var more := Scan(s[1 + e.value.1..]);
      if more.None? then None else Some(([e.value.0] + more.value.0, more.value.1))
    else
      var more := Scan(s[1..]);
      if more.None? then None else Some(([s[0]] + more.value.0, more.value.1))
  }

  predicate JsonBlank(s: string) {
    forall c :: c in s ==> c in " \t\n\r"
  }

  function SkipBlank(s: string): string {
    if s != "" && s[0] in " \t\n\r" then SkipBlank(s[1..]) else s
  }

  /** `json.loads` where the outcome must be a string. */
  function JsonString(literal: string): Option<string> {
    var s := SkipBlank(literal);
    if s == "" || s[0] != '\"' then None else
    var r := Scan(s[1..]);
    if r.None? || !JsonBlank(r.value.1) then None else Some(r.value.0)
  }

  // ----- the printer ------------------------------------------------------------------------------

  /** `str.replace` of one character. */
  function ReplaceChar(s: string, c: char, to: string): string {
    if s == "" then "" else (if s[0] == c then to else [s[0]]) + ReplaceChar(s[1..], c, to)
  }

  /** One character as it is printed. */
  function EscapeOne(c: char): string {
    if c == '\\' then "\\\\" else if c == '\"' then "\\\"" else [c]
  }

  function EscapedValue(s: string): string {
    if s == "" then "" else EscapeOne(s[0]) + EscapedValue(s[1..])
  }

  function Printed(value: string): string {
    "\"" + ReplaceChar(ReplaceChar(value, '\\', "\\\\"), '\"', "\\\"") + "\""
  }

  lemma {:induction false} ReplaceCat(a: string, b: string, c: char, to: string)
    ensures ReplaceChar(a + b, c, to) == ReplaceChar(a, c, to) + ReplaceChar(b, c, to)
  {
    if a == "" {
      assert a + b == b;
    } else {
      assert (a + b)[0] == a[0] && (a + b)[1..] == a[1..] + b;
      ReplaceCat(a[1..], b, c, to);
    }
  }

  /** The two chained replacements do not touch each other's output: they escape character by
      character. */
  lemma {:induction false} ChainedReplaces(value: string)
    ensures ReplaceChar(ReplaceChar(value, '\\', "\\\\"), '\"', "\\\"") == EscapedValue(value)
  {
    if value != "" {
      ChainedReplaces(value[1..]);
      var first := if value[0] == '\\' then "\\\\" else [value[0]];
      ReplaceCat(first, ReplaceChar(value[1..], '\\', "\\\\"), '\"', "\\\"");
      assert ReplaceChar(first, '\"', "\\\"") == EscapeOne(value[0]) by {
        ReplaceOne(value[0]);
      }
    }
  }

  lemma ReplaceOne(c: char)
    ensures ReplaceChar(if c == '\\' then "\\\\" else [c], '\"', "\\\"") == EscapeOne(c)
  {
    assert ReplaceChar("\\\\"[1..], '\"', "\\\"") == "\\";
    assert [c][1..] == "";
  }

  predicate NoControl(s: string) {
    forall c :: c in s ==> c >= ' '
  }

  lemma ScanOne(c: char, rest: string)
    ensures Scan(EscapeOne(c) + rest) == if c < ' ' || Scan(rest).None? then None
                                         else Some(([c] + Scan(rest).value.0, Scan(rest).value.1))
  {
    var e := EscapeOne(c);
    var s := e + rest;
    if |e| == 2 {
      assert s[0] == '\\' && s[1..][0] == c && s[1 + 1..] == rest;
      assert EscapeAt(s[1..]) == Some((c, 1));
    } else {
      assert s[0] == c && s[1..] == rest;
    }
  }

  lemma {:induction false} ScanBack(value: string)
    ensures Scan(EscapedValue(value) + "\"") == if NoControl(value) then Some((value, "")) else None
  {
    hide Scan, EscapeOne;
    if value == "" {
      assert EscapedValue(value) + "\"" == "\"";
      ScanEmpty();
    } else {
      ScanBack(value[1..]);
      ScanOne(value[0], EscapedValue(value[1..]) + "\"");
      assert EscapedValue(value) + "\"" == EscapeOne(value[0]) + (EscapedValue(value[1..]) + "\"");
      assert value == [value[0]] + value[1..];
      NoControlFirst(value);
    }
  }

  lemma NoControlFirst(s: string)
    requires s != ""
    ensures NoControl(s) <==> s[0] >= ' ' && NoControl(s[1..])
  {
    assert s[0] in s;
    forall c | c in s[1..]
      ensures c in s
    {
    }
    forall c | c in s && c != s[0]
      ensures c in s[1..]
    {
      var k :| 0 <= k < |s| && s[k] == c;
      assert s[1..][k - 1] == c;
    }
  }

  lemma ScanEmpty()
    ensures Scan("\"") == Some(("", ""))
  {
    assert "\""[1..] == "";
  }

  /** A printed value is a legal literal that reads back as the value exactly when the value holds no
      control character. */
  lemma PrintedReads(value: string)
    ensures JsonString(Printed(value)) == if NoControl(value) then Some(value) else None
  {
    hide Scan;
    ChainedReplaces(value);
    ScanBack(value);
    assert Printed(value)[1..] == EscapedValue(value) + "\"";
  }

  lemma {:induction false} EscapedChars(value: string)
    ensures forall c :: c in EscapedValue(value) ==> c in value || c == '\\'
  {
    if value != "" {
      EscapedChars(value[1..]);
      assert value == [value[0]] + value[1..];
    }
  }

  // ----- reading what a JSON printer prints -------------------------------------------------------

  lemma HexBack(d: nat)
    requires d < 16
    ensures Percent.HexValue(Dotenv.HexDigit(d)) == Some(d)
  {
  }

  lemma Nibbles(n: nat)
    requires n < 0x1_0000
    ensures n / 4096 < 16 && ((n / 4096 * 16 + n / 256 % 16) * 16 + n / 16 % 16) * 16 + n % 16 == n
  {
    assert n / 256 == n / 4096 * 16 + n / 256 % 16 by {
      assert n / 256 / 16 == n / 4096;
    }
    assert n / 16 == n / 256 * 16 + n / 16 % 16 by {
      assert n / 16 / 16 == n / 256;
    }
  }

  lemma UnitBack(n: nat, rest: string)
    requires n < 0x1_0000
    ensures Unit((Dotenv.Unit(n) + rest)[2..]) == Some(n)
  {
    hide Percent.HexValue, Dotenv.HexDigit;
    Nibbles(n);
    HexBack(n / 4096);
    HexBack(n / 256 % 16);
    HexBack(n / 16 % 16);
    HexBack(n % 16);
    var s := (Dotenv.Unit(n) + rest)[2..];
    assert s == Dotenv.Unit(n)[2..] + rest;
  }

  /** One character as the dotenv writer's JSON printer escapes it. */
  lemma EscapeBack(c: char, rest: string)
    requires |Dotenv.Escape(c)| >= 2
    ensures Dotenv.Escape(c)[0] == '\\' && EscapeAt((Dotenv.Escape(c) + rest)[1..]) == Some((c, |Dotenv.Escape(c)| - 1))
  {
    hide Unit, Dotenv.Unit;
    var e := Dotenv.Escape(c);
    var s := (e + rest)[1..];
    if |e| > 2 {
      if c as int < 0x1_0000 {
        UnitBack(c as int, rest);
        assert s[1..] == (e + rest)[2..] && s[0] == 'u';
      } else {
        var n := c as int - 0x1_0000;
        PairBack(0xD800 + n / 0x400, 0xDC00 + n % 0x400, rest);
        assert 0x1_0000 + (n / 0x400) * 0x400 + n % 0x400 == c as int;
      }
    } else {
      assert s[0] == e[1];
    }
  }

  lemma PairBack(high: nat, low: nat, rest: string)
    requires 0xD800 <= high < 0xDC00 && 0xDC00 <= low <= 0xDFFF
    ensures var s := (Dotenv.Unit(high) + Dotenv.Unit(low) + rest)[1..];
            EscapeAt(s) == Some(((0x1_0000 + (high - 0xD800) * 0x400 + (low - 0xDC00)) as char, 11))
  {
    hide Unit, Dotenv.Unit;
    var all := Dotenv.Unit(high) + Dotenv.Unit(low) + rest;
    var s := all[1..];
    UnitBack(high, Dotenv.Unit(low) + rest);
    assert all == Dotenv.Unit(high) + (Dotenv.Unit(low) + rest);
    assert s[1..] == all[2..] && s[0] == 'u';
    UnitBack(low, rest);
    assert s[5] == Dotenv.Unit(low)[0] && s[6] == Dotenv.Unit(low)[1];
    assert s[7..] == (Dotenv.Unit(low) + rest)[2..];
  }

  lemma {:induction false} ScanEscaped(value: string)
    ensures Scan(Dotenv.Escaped(value) + "\"") == Some((value, ""))
  {
    hide Dotenv.Escape, EscapeAt;
    if value == "" {
      ScanEmpty();
      assert Dotenv.Escaped(value) + "\"" == "\"";
    } else {
      ScanEscaped(value[1..]);
      var e, rest := Dotenv.Escape(value[0]), Dotenv.Escaped(value[1..]) + "\"";
      assert Dotenv.Escaped(value) + "\"" == e + rest;
      ScanEscape(value[0], rest);
      assert value == [value[0]] + value[1..];
    }
  }

  lemma ScanEscape(c: char, rest: string)
    requires Scan(rest).Some?
    ensures Scan(Dotenv.Escape(c) + rest) == Some(([c] + Scan(rest).value.0, Scan(rest).value.1))
  {
    hide EscapeAt;
    var e := Dotenv.Escape(c);
    if |e| == 1 {
      OneCharacter(c);
      assert (e + rest)[1..] == rest;
    } else {
      hide Dotenv.Escape;
      EscapeBack(c, rest);
      assert (e + rest)[1 + (|e| - 1)..] == rest;
    }
  }

  lemma OneCharacter(c: char)
    ensures |Dotenv.Escape(c)| == 1 ==> Dotenv.Escape(c) == [c] && ' ' <= c && c != '\"' && c != '\\'
  {
    hide Dotenv.Unit;
  }

  /** The JSON reader gives back every text from the JSON printer's form of it, whatever it holds. */
  lemma JsonInverts(value: string)
    ensures JsonString(Dotenv.Quoted(value)) == Some(value)
  {
    hide Scan;
    ScanEscaped(value);
    assert Dotenv.Quoted(value)[1..] == Dotenv.Escaped(value) + "\"";
  }

  // ----- configuration ----------------------------------------------------------------------------

  /** One key with its value; a configuration is the sequence of its entries, keys distinct. */
  datatype Item = Item(key: string, value: string)

  predicate HasKey(items: seq<Item>, key: string) {
    exists i :: 0 <= i < |items| && items[i].key == key
  }

  function AsMap(items: seq<Item>): (m: map<string, string>)
    ensures forall k :: k in m <==> HasKey(items, k)
  {
    if items == [] then map[] else
    var n := |items| - 1;
    var m := AsMap(items[..n])[items[n].key := items[n].value];
    assert forall k :: HasKey(items, k) <==> HasKey(items[..n], k) || items[n].key == k by {
      assert forall i :: 0 <= i < n ==> items[..n][i] == items[i];
    }
    m
  }

  /** `[A-Z][A-Z0-9_]*`. */
  predicate ConfigKey(s: string) {
    && s != "" && 'A' <= s[0] <= 'Z'
    && forall k :: 0 <= k < |s| ==> 'A' <= s[k] <= 'Z' || IsDigit(s[k]) || s[k] == '_'
  }

  predicate ConfigValue(s: string) {
    NoControl(s) && Dotenv.Strip(s) == s
  }

  predicate Ignored(line: string) {
    Dotenv.Strip(line) == "" || "#" <= Dotenv.LeftStrip(line)
  }

  /** `line.partition("=")`, where there is a separator. */
  function Entry(line: string): Option<Item> {
    var i := First(line, "=");
    if i == |line| then None else Some(Item(line[..i], line[i + 1..]))
  }

  /** `read_config`, on the lines of the file. */
  function Config(lines: seq<string>): Result<seq<Item>> {
    if lines == [] then Ok([]) else
    var before := Config(lines[..|lines| - 1]);
    var line := lines[|lines| - 1];
    if before.Err? then Err
    else if Ignored(line) then before else
    var e := Entry(line);
    if e.None? || !ConfigKey(e.value.key) || HasKey(before.value, e.value.key) || !ConfigValue(e.value.value) then Err
    else Ok(before.value + [e.value])
  }

  /** The reader's loop. */
  method ReadConfig(lines: seq<string>) returns (r: Result<seq<Item>>)
    ensures r == Config(lines)
  {
    hide Ignored, Entry, ConfigKey, ConfigValue, HasKey;
    var result: seq<Item> := [];
    for number := 0 to |lines|
      invariant Config(lines[..number]) == Ok(result)
    {
      assert lines[..number + 1][..number] == lines[..number];
      var line := lines[number];
      if Ignored(line) {
        continue;
      }
      var e := Entry(line);
      if e.None? || !ConfigKey(e.value.key) || HasKey(result, e.value.key) || !ConfigValue(e.value.value) {
        ConfigErrStays(lines, number + 1);
        return Err;
      }
      result := result + [e.value];
    }
    assert lines[..|lines|] == lines;
    return Ok(result);
  }

  lemma {:induction false} ConfigErrStays(lines: seq<string>, n: nat)
    requires n <= |lines| && Config(lines[..n]).Err?
    ensures Config(lines).Err?
  {
    if n == |lines| {
      assert lines[..n] == lines;
    } else {
      assert lines[..|lines| - 1][..n] == lines[..n];
      ConfigErrStays(lines[..|lines| - 1], n);
    }
  }

  predicate Distinct(items: seq<Item>) {
    forall i, j :: 0 <= i < j < |items| ==> items[i].key != items[j].key
  }

  /** What the grammar guarantees of an entry that came from one line. */
  predicate LineItem(item: Item) {
    ConfigKey(item.key) && NoControl(item.value) && Dotenv.Unbroken(item.value)
  }

  predicate LineItems(items: seq<Item>) {
    Distinct(items) && forall i :: 0 <= i < |items| ==> LineItem(items[i])
  }

  lemma {:induction false} ConfigItems(lines: seq<string>)
    requires (forall l :: l in lines ==> Dotenv.Unbroken(l)) && Config(lines).Ok?
    ensures LineItems(Config(lines).value)
  {
    hide ConfigKey, Ignored;
    if lines != [] {
      var n := |lines| - 1;
      ConfigItems(lines[..n]);
      if !Ignored(lines[n]) {
        var e := Entry(lines[n]).value;
        assert lines[n] in lines;
        assert forall c :: c in e.value ==> c in lines[n];
      }
    }
  }

  // ----- creating the configuration ---------------------------------------------------------------

  /** The lines `create_config` writes for the entries, each behind its comment. */
  function CreatedLines(items: seq<Item>, notes: seq<string>): seq<string>
    requires |items| == |notes|
  {
    if items == [] then [] else
    var n := |items| - 1;
    CreatedLines(items[..n], notes[..n]) + ["# " + notes[n], items[n].key + "=" + items[n].value]
  }

  lemma CommentIgnored(note: string)
    ensures Ignored("# " + note)
  {
    assert Dotenv.LeftStrip("# " + note) == "# " + note;
  }

  lemma SettingParsed(item: Item)
    requires ConfigKey(item.key)
    ensures !Ignored(item.key + "=" + item.value)
    ensures Entry(item.key + "=" + item.value) == Some(item)
  {
    var line := item.key + "=" + item.value;
    assert line[0] == item.key[0];
    assert Dotenv.LeftStrip(line) == line;
    forall k | 0 <= k < |item.key|
      ensures line[k] !in "="
    {
      assert line[k] == item.key[k];
    }
    FirstIs(line, "=", |item.key|);
    assert line[..|item.key|] == item.key && line[|item.key| + 1..] == item.value;
    NonBlank(line);
  }

  lemma {:induction false} NonBlank(line: string)
    requires line != "" && !Dotenv.Space(line[0])
    ensures Dotenv.RightStrip(line) != ""
  {
    if |line| > 1 {
      NonBlank(line[..|line| - 1]);
    }
  }

  lemma ConfigPair(lines: seq<string>, note: string, setting: string)
    requires Ignored(note) && !Ignored(setting)
    ensures Config(lines + [note, setting]) ==
              if Config(lines).Err? || Entry(setting).None? then Err else
              var e := Entry(setting).value;
              if !ConfigKey(e.key) || HasKey(Config(lines).value, e.key) || !ConfigValue(e.value) then Err
              else Ok(Config(lines).value + [e])
  {
    hide Ignored, Entry, ConfigKey, ConfigValue, HasKey;
    var all := lines + [note, setting];
    assert all[..|all| - 1] == lines + [note];
    assert (lines + [note])[..|lines|] == lines;
  }

  predicate AllConfigValues(items: seq<Item>) {
    forall i :: 0 <= i < |items| ==> ConfigValue(items[i].value)
  }

  /** The comment lines at the head of the file, and then the entries. */
  function CreatedFile(heading: seq<string>, items: seq<Item>, notes: seq<string>): seq<string>
    requires |items| == |notes|
  {
    Comments(heading) + CreatedLines(items, notes)
  }

  function Comments(heading: seq<string>): (lines: seq<string>)
    ensures |lines| == |heading|
  {
    if heading == [] then [] else Comments(heading[..|heading| - 1]) + ["# " + heading[|heading| - 1]]
  }

  lemma {:induction false} CommentsIgnored(heading: seq<string>)
    ensures Config(Comments(heading)) == Ok([])
  {
    hide Ignored;
    if heading != [] {
      var n := |heading| - 1;
      CommentsIgnored(heading[..n]);
      CommentIgnored(heading[n]);
      assert Comments(heading)[..n] == Comments(heading[..n]);
    }
  }

  /** On ready-made lines. */
  lemma {:induction false} LinesAccepted(heading: seq<string>, items: seq<Item>, notes: seq<string>)
    requires |items| == |notes| && Distinct(items) && forall i :: 0 <= i < |items| ==> ConfigKey(items[i].key)
    requires AllConfigValues(items)
    ensures Config(CreatedFile(heading, items, notes)) == Ok(items)
  {
    hide Ignored, Entry, ConfigKey, ConfigValue;
    if items == [] {
      CommentsIgnored(heading);
      assert CreatedFile(heading, items, notes) == Comments(heading);
    } else {
      var n := |items| - 1;
      assert forall i :: 0 <= i < n ==> items[..n][i] == items[i];
      LinesAccepted(heading, items[..n], notes[..n]);
      CommentIgnored(notes[n]);
      SettingParsed(items[n]);
      var pair := ["# " + notes[n], items[n].key + "=" + items[n].value];
      ConfigPair(CreatedFile(heading, items[..n], notes[..n]), pair[0], pair[1]);
      assert CreatedFile(heading, items, notes) == CreatedFile(heading, items[..n], notes[..n]) + pair;
      assert !HasKey(items[..n], items[n].key);
      assert items[..n] + [items[n]] == items;
    }
  }

  lemma {:induction false} AcceptedValues(lines: seq<string>)
    requires Config(lines).Ok?
    ensures AllConfigValues(Config(lines).value)
  {
    hide ConfigValue, ConfigKey, Ignored, Entry;
    if lines != [] {
      AcceptedValues(lines[..|lines| - 1]);
    }
  }

  predicate AllUnbroken(texts: seq<string>) {
    forall i :: 0 <= i < |texts| ==> Dotenv.Unbroken(texts[i])
  }

  lemma {:induction false} CommentsUnbroken(heading: seq<string>)
    requires AllUnbroken(heading)
    ensures AllUnbroken(Comments(heading))
  {
    if heading != [] {
      var n := |heading| - 1;
      assert forall i :: 0 <= i < n ==> heading[..n][i] == heading[i];
      CommentsUnbroken(heading[..n]);
      UnbrokenCat("# ", heading[n]);
    }
  }

  lemma UnbrokenCat(a: string, b: string)
    requires Dotenv.Unbroken(a) && Dotenv.Unbroken(b)
    ensures Dotenv.Unbroken(a + b)
  {
  }

  lemma {:induction false} EntriesUnbroken(items: seq<Item>, notes: seq<string>)
    requires |items| == |notes| && AllUnbroken(notes)
    requires forall i :: 0 <= i < |items| ==> ConfigKey(items[i].key) && Dotenv.Unbroken(items[i].value)
    ensures AllUnbroken(CreatedLines(items, notes))
  {
    hide ConfigKey, Dotenv.Unbroken;
    if items != [] {
      var n := |items| - 1;
      assert forall i :: 0 <= i < n ==> items[..n][i] == items[i] && notes[..n][i] == notes[i];
      EntriesUnbroken(items[..n], notes[..n]);
      KeyUnbroken(items[n].key);
      UnbrokenCat("# ", notes[n]);
      UnbrokenCat(items[n].key + "=", items[n].value);
    }
  }

  lemma KeyUnbroken(key: string)
    requires ConfigKey(key)
    ensures Dotenv.Unbroken(key + "=") && Dotenv.Unbroken("# ")
  {
    forall c | c in key + "="
      ensures !Dotenv.Break(c)
    {
      if c in key {
        var k :| 0 <= k < |key| && key[k] == c;
      }
    }
  }

  /** A created file gives back the settings it was created from exactly when no value holds a control
      character, outer white space, or anything else a line can be split at. */
  lemma CreatedReads(heading: seq<string>, items: seq<Item>, notes: seq<string>)
    requires |items| == |notes| && Distinct(items) && forall i :: 0 <= i < |items| ==> ConfigKey(items[i].key)
    requires AllUnbroken(heading) && AllUnbroken(notes)
    ensures Config(Dotenv.FileLines(Dotenv.Joined(CreatedFile(heading, items, notes)))) == Ok(items) <==>
              forall i :: 0 <= i < |items| ==> ConfigValue(items[i].value) && Dotenv.Unbroken(items[i].value)
  {
    hide ConfigKey, ConfigValue, Config, Dotenv.Unbroken, Dotenv.FileLines;
    var lines := CreatedFile(heading, items, notes);
    var read := Dotenv.FileLines(Dotenv.Joined(lines));
    if Config(read) == Ok(items) {
      ConfigItems(read);
      AcceptedValues(read);
      assert forall i :: 0 <= i < |items| ==> LineItem(items[i]);
    }
    if forall i :: 0 <= i < |items| ==> ConfigValue(items[i].value) && Dotenv.Unbroken(items[i].value) {
      CommentsUnbroken(heading);
      EntriesUnbroken(items, notes);
      LinesAccepted(heading, items, notes);
      TextBack(lines);
    }
  }

  lemma TextBack(lines: seq<string>)
    requires AllUnbroken(lines)
    ensures Dotenv.FileLines(Dotenv.Joined(lines)) == lines
  {
    Dotenv.LinesReadBack(lines);
  }

  // ----- publishing -------------------------------------------------------------------------------

  function EnvLine(item: Item): string {
    item.key + "=" + Printed(item.value)
  }

  function EnvLines(items: seq<Item>): (lines: seq<string>)
    ensures |lines| == |items| && forall i :: 0 <= i < |items| ==> lines[i] == EnvLine(items[i])
  {
    if items == [] then [] else [EnvLine(items[0])] + EnvLines(items[1..])
  }

  /** `environment(values)`. */
  function Environment(items: seq<Item>): string {
    if items == [] then "" else items[0].key + "=" + Printed(items[0].value) + "\n" + Environment(items[1..])
  }

  /** `read_published_environment`, on the lines of the file. */
  function Published(lines: seq<string>): Result<map<string, string>> {
    if lines == [] then Ok(map[]) else
    var before := Published(lines[..|lines| - 1]);
    var e := Entry(lines[|lines| - 1]);
    if before.Err? || e.None? || e.value.key == "" || e.value.key in before.value then Err else
    var value := JsonString(e.value.value);
    if value.None? then Err else Ok(before.value[e.value.key := value.value])
  }

  /** The reader's loop. */
  method ReadPublished(lines: seq<string>) returns (r: Result<map<string, string>>)
    ensures r == Published(lines)
  {
    hide Entry, JsonString;
    var result: map<string, string> := map[];
    for number := 0 to |lines|
      invariant Published(lines[..number]) == Ok(result)
    {
      assert lines[..number + 1][..number] == lines[..number];
      var e := Entry(lines[number]);
      if e.None? || e.value.key == "" || e.value.key in result {
        PublishedErrStays(lines, number + 1);
        return Err;
      }
      var value := JsonString(e.value.value);
      if value.None? {
        PublishedErrStays(lines, number + 1);
        return Err;
      }
      result := result[e.value.key := value.value];
    }
    assert lines[..|lines|] == lines;
    return Ok(result);
  }

  lemma {:induction false} PublishedErrStays(lines: seq<string>, n: nat)
    requires n <= |lines| && Published(lines[..n]).Err?
    ensures Published(lines).Err?
  {
    if n == |lines| {
      assert lines[..n] == lines;
    } else {
      assert lines[..|lines| - 1][..n] == lines[..n];
      PublishedErrStays(lines[..|lines| - 1], n);
    }
  }

  lemma {:induction false} EnvironmentJoined(items: seq<Item>)
    ensures Environment(items) == Dotenv.Joined(EnvLines(items))
  {
    hide Printed;
    if items != [] {
      EnvironmentJoined(items[1..]);
      assert EnvLines(items)[1..] == EnvLines(items[1..]);
    }
  }

  lemma EnvLineReads(item: Item)
    requires LineItem(item)
    ensures Dotenv.Unbroken(EnvLine(item))
    ensures Entry(EnvLine(item)) == Some(Item(item.key, Printed(item.value)))
    ensures item.key != "" && JsonString(Printed(item.value)) == Some(item.value)
  {
    hide Printed, JsonString;
    var line := EnvLine(item);
    PrintedReads(item.value);
    forall k | 0 <= k < |item.key|
      ensures line[k] !in "="
    {
      assert line[k] == item.key[k];
    }
    FirstIs(line, "=", |item.key|);
    assert line[..|item.key|] == item.key && line[|item.key| + 1..] == Printed(item.value);
    LineUnbroken(item);
  }

  lemma LineUnbroken(item: Item)
    requires LineItem(item)
    ensures Dotenv.Unbroken(EnvLine(item))
  {
    ChainedReplaces(item.value);
    EscapedChars(item.value);
    forall c | c in EnvLine(item)
      ensures !Dotenv.Break(c)
    {
      assert c in item.key || c == '=' || c == '\"' || c in EscapedValue(item.value);
    }
  }

  lemma {:induction false} LinesRead(items: seq<Item>)
    requires LineItems(items)
    ensures Published(EnvLines(items)) == Ok(AsMap(items))
  {
    hide LineItem, EnvLine, Entry, JsonString, Printed;
    if items != [] {
      var n := |items| - 1;
      var lines := EnvLines(items);
      assert EnvLines(items[..n]) == lines[..n];
      LinesRead(items[..n]);
      EnvLineReads(items[n]);
      assert !HasKey(items[..n], items[n].key);
    }
  }

  /** What is published reads back as exactly the configuration it was made from. */
  lemma EnvironmentReads(items: seq<Item>)
    requires LineItems(items)
    ensures Published(Dotenv.FileLines(Environment(items))) == Ok(AsMap(items))
  {
    hide LineItem, EnvLine, Published, Environment, AsMap;
    forall l | l in EnvLines(items)
      ensures Dotenv.Unbroken(l)
    {
      var i :| 0 <= i < |items| && l == EnvLine(items[i]);
      EnvLineReads(items[i]);
    }
    EnvironmentJoined(items);
    Dotenv.LinesReadBack(EnvLines(items));
    LinesRead(items);
  }

  /** For every configuration text the parser accepts, the published file reads back as the same
      mapping. */
  lemma ConfigRoundTrip(text: string)
    requires Config(Dotenv.FileLines(text)).Ok?
    ensures var items := Config(Dotenv.FileLines(text)).value;
            Published(Dotenv.FileLines(Environment(items))) == Ok(AsMap(items))
  {
    hide Config, Published, Environment, LineItems, AsMap;
    ConfigItems(Dotenv.FileLines(text));
    EnvironmentReads(Config(Dotenv.FileLines(text)).value);
  }

  // ----- what each service is given ---------------------------------------------------------------

  function Without(items: seq<Item>, secret: set<string>): (r: seq<Item>)
    ensures forall i :: 0 <= i < |r| ==> r[i] in items && r[i].key !in secret
  {
    if items == [] then [] else
    Without(items[..|items| - 1], secret) + if items[|items| - 1].key in secret then [] else [items[|items| - 1]]
  }

  /** `values | {key: value}`, for a key that is there. */
  function With(items: seq<Item>, key: string, value: string): (r: seq<Item>)
    ensures |r| == |items|
    ensures forall i :: 0 <= i < |r| ==> r[i].key == items[i].key
    ensures forall i :: 0 <= i < |r| ==> r[i].value == if items[i].key == key then value else items[i].value
  {
    if items == [] then [] else
    var last := items[|items| - 1];
    With(items[..|items| - 1], key, value) + [if last.key == key then Item(key, value) else last]
  }

  const SECRET: set<string> := {"MONGO_ADMIN_PASSWORD", "MONGO_REPLICA_KEY"}

  /** The API's entries: its own log root, and neither the administrator's password nor the key. */
  function ApiItems(items: seq<Item>): Result<seq<Item>> {
    var m := AsMap(items);
    if "LOG_ROOT" !in m || "API_LOG_ROOT" !in m then Err
    else Ok(Without(With(items, "LOG_ROOT", m["API_LOG_ROOT"]), SECRET))
  }

  /** The Worker's entries: its own log root, and the same two left out. */
  function WorkerItems(items: seq<Item>): Result<seq<Item>> {
    var m := AsMap(items);
    if "LOG_ROOT" !in m then Err else Ok(Without(With(items, "LOG_ROOT", m["LOG_ROOT"]), SECRET))
  }

  lemma AsMapSnoc(items: seq<Item>, last: Item)
    ensures AsMap(items + [last]) == AsMap(items)[last.key := last.value]
  {
    assert (items + [last])[..|items|] == items;
  }

  lemma {:induction false} AsMapWithout(items: seq<Item>, secret: set<string>)
    ensures AsMap(Without(items, secret)) == AsMap(items) - secret
  {
    hide AsMap, Without;
    if items == [] {
      NoItems();
      WithoutNone(secret);
    } else {
      var n := |items| - 1;
      AsMapWithout(items[..n], secret);
      assert items == items[..n] + [items[n]];
      AsMapSnoc(items[..n], items[n]);
      AsMapSnoc(Without(items[..n], secret), items[n]);
      WithoutSnoc(items, secret);
    }
  }

  lemma WithoutNone(secret: set<string>)
    ensures Without([], secret) == []
  {
  }

  lemma WithoutSnoc(items: seq<Item>, secret: set<string>)
    requires items != []
    ensures var n := |items| - 1;
            Without(items, secret) ==
              if items[n].key in secret then Without(items[..n], secret) else Without(items[..n], secret) + [items[n]]
  {
    var kept := Without(items[..|items| - 1], secret);
    assert kept + [] == kept;
  }

  lemma NoItems()
    ensures AsMap([]) == map[]
  {
  }

  lemma {:induction false} AsMapWith(items: seq<Item>, key: string, value: string)
    ensures AsMap(With(items, key, value)) == if key in AsMap(items) then AsMap(items)[key := value] else AsMap(items)
  {
    hide AsMap, HasKey;
    if items == [] {
      NoItems();
    } else {
      var n := |items| - 1;
      var last := items[n];
      AsMapWith(items[..n], key, value);
      assert items == items[..n] + [last];
      AsMapSnoc(items[..n], last);
      AsMapSnoc(With(items[..n], key, value), if last.key == key then Item(key, value) else last);
    }
  }

  lemma {:induction false} WithoutDistinct(items: seq<Item>, secret: set<string>)
    requires Distinct(items)
    ensures Distinct(Without(items, secret))
  {
    if items != [] {
      var n := |items| - 1;
      assert Distinct(items[..n]) by {
        assert forall i :: 0 <= i < n ==> items[..n][i] == items[i];
      }
      WithoutDistinct(items[..n], secret);
      var kept := Without(items[..n], secret);
      forall i | 0 <= i < |kept|
        ensures kept[i].key != items[n].key
      {
        var j :| 0 <= j < n && items[..n][j] == kept[i];
        assert items[j] == kept[i];
      }
    }
  }

  /** What a published file must hold: every configured key but the two secrets, with its configured value
      except for the log root, and nothing else. */
  predicate Tells(env: map<string, string>, v: map<string, string>, logRoot: string) {
    && "MONGO_ADMIN_PASSWORD" !in env && "MONGO_REPLICA_KEY" !in env
    && "LOG_ROOT" in env && env["LOG_ROOT"] == logRoot
    && (forall k :: k in v && k != "MONGO_ADMIN_PASSWORD" && k != "MONGO_REPLICA_KEY" && k != "LOG_ROOT" ==>
          k in env && env[k] == v[k])
    && (forall k :: k in env ==> k in v)
  }

  lemma StrippedTells(m: map<string, string>, root: string)
    requires "LOG_ROOT" in m
    ensures Tells(m["LOG_ROOT" := root] - SECRET, m, root)
  {
  }

  /** Giving the entries another of their own values as the log root and leaving out the secrets keeps
      them entries of one line each. */
  lemma GivenItems(items: seq<Item>, from: string)
    requires LineItems(items) && HasKey(items, from)
    ensures LineItems(Without(With(items, "LOG_ROOT", AsMap(items)[from]), SECRET))
  {
    hide LineItem, AsMap, HasKey;
    var root := AsMap(items)[from];
    var given := With(items, "LOG_ROOT", root);
    ValueOf(items, from);
    forall i | 0 <= i < |given|
      ensures LineItem(given[i])
    {
      Relabel(items, i, root);
    }
    WithoutDistinct(given, SECRET);
  }

  /** Publishing entries without the secrets and with a log root of the configuration's own. */
  lemma PublishedTells(text: string, from: string)
    requires Config(Dotenv.FileLines(text)).Ok?
    requires var m := AsMap(Config(Dotenv.FileLines(text)).value); "LOG_ROOT" in m && from in m
    ensures var items := Config(Dotenv.FileLines(text)).value;
            var m := AsMap(items);
            var given := Without(With(items, "LOG_ROOT", m[from]), SECRET);
            && Published(Dotenv.FileLines(Environment(given))) == Ok(m["LOG_ROOT" := m[from]] - SECRET)
            && Tells(m["LOG_ROOT" := m[from]] - SECRET, m, m[from])
  {
    hide Config, Published, Environment, AsMap, LineItems, Tells, HasKey, Distinct;
    var items := Config(Dotenv.FileLines(text)).value;
    ConfigItems(Dotenv.FileLines(text));
    var root := AsMap(items)[from];
    AsMapWith(items, "LOG_ROOT", root);
    AsMapWithout(With(items, "LOG_ROOT", root), SECRET);
    GivenItems(items, from);
    EnvironmentReads(Without(With(items, "LOG_ROOT", root), SECRET));
    StrippedTells(AsMap(items), root);
  }

  /** The published API file reads back as the configuration with the API's log root and without the two
      secrets: nothing else is lost or changed on the way through the file. */
  lemma ApiReads(text: string)
    requires Config(Dotenv.FileLines(text)).Ok? && ApiItems(Config(Dotenv.FileLines(text)).value).Ok?
    ensures var items := Config(Dotenv.FileLines(text)).value;
            var read := Published(Dotenv.FileLines(Environment(ApiItems(items).value)));
            "API_LOG_ROOT" in AsMap(items) && read.Ok? && Tells(read.value, AsMap(items), AsMap(items)["API_LOG_ROOT"])
  {
    hide Config, Published, Environment, AsMap;
    PublishedTells(text, "API_LOG_ROOT");
  }

  /** The Worker's likewise, with its own. */
  lemma WorkerReads(text: string)
    requires Config(Dotenv.FileLines(text)).Ok? && WorkerItems(Config(Dotenv.FileLines(text)).value).Ok?
    ensures var items := Config(Dotenv.FileLines(text)).value;
            var read := Published(Dotenv.FileLines(Environment(WorkerItems(items).value)));
            "LOG_ROOT" in AsMap(items) && read.Ok? && Tells(read.value, AsMap(items), AsMap(items)["LOG_ROOT"])
  {
    hide Config, Published, Environment, AsMap;
    PublishedTells(text, "LOG_ROOT");
  }

  /** There is only one mapping a file can tell. */
  lemma TellsOne(a: map<string, string>, b: map<string, string>, v: map<string, string>, logRoot: string)
    requires Tells(a, v, logRoot) && Tells(b, v, logRoot)
    ensures a == b
  {
    assert a.Keys == b.Keys;
  }

  lemma {:induction false} ValueOf(items: seq<Item>, key: string)
    requires HasKey(items, key)
    ensures exists i :: 0 <= i < |items| && items[i] == Item(key, AsMap(items)[key])
  {
    var n := |items| - 1;
    if items[n].key != key {
      assert HasKey(items[..n], key) by {
        var i :| 0 <= i < |items| && items[i].key == key;
        assert items[..n][i].key == key;
      }
      ValueOf(items[..n], key);
      var i :| 0 <= i < n && items[..n][i] == Item(key, AsMap(items[..n])[key]);
      assert items[i] == Item(key, AsMap(items)[key]);
    }
  }

  lemma Relabel(items: seq<Item>, i: nat, value: string)
    requires LineItems(items) && i < |items|
    requires exists j :: 0 <= j < |items| && items[j].value == value
    ensures LineItem(With(items, "LOG_ROOT", value)[i])
  {
    var j :| 0 <= j < |items| && items[j].value == value;
    assert LineItem(items[i]) && LineItem(items[j]);
  }
}
