/** Preparing the platform host's file: derive the address, check it, write it, read it back. */
module Platform {
  import opened Results
  import opened Bytes
  import opened Dotenv
  import opened MongoUri
  import opened Url
  import opened Percent

  type Values = map<string, string>

  const SHARED := ["MONGO_URI", "ENCRYPTION_KEY", "BOOTSTRAP_TOKEN", "INTERNAL_TOKEN"]
  const REQUIRED := ["DATABASE_HOST", "DATABASE_BIND_IP", "MONGO_PORT_1", "MONGO_PORT_2", "MONGO_PORT_3",
    "MONGO_ROOT_USERNAME", "MONGO_ROOT_PASSWORD", "MONGO_REPLICA_KEY", "DATABASE_NAME"]

  predicate Contains(s: string, part: string) {
    exists i :: 0 <= i <= |s| && part <= s[i..]
  }

  /** `_require`: filled in, and not with a documentation placeholder. */
  predicate Filled(values: Values, names: seq<string>) {
    forall i :: 0 <= i < |names| ==>
      names[i] in values && values[names[i]] != "" && !Contains(values[names[i]], "REPLACE_")
  }

  /** Digits in groups joined by single underscores. */
  predicate Grouped(s: string) {
    && s != "" && IsDigit(s[0]) && IsDigit(s[|s| - 1])
    && (forall k :: 0 <= k < |s| ==> IsDigit(s[k]) || s[k] == '_')
    && (forall k :: 0 < k < |s| ==> s[k] != '_' || s[k - 1] != '_')
  }

  function Ungrouped(s: string): (r: string)
    requires forall k :: 0 <= k < |s| ==> IsDigit(s[k]) || s[k] == '_'
    ensures AllDigits(r)
  {
    if s == "" then "" else (if s[0] == '_' then "" else [s[0]]) + Ungrouped(s[1..])
  }

  /** `int(text)`. */
  function Int(text: string): Option<int> {
    var s := Strip(text);
    var body := if s != "" && s[0] in "+-" then s[1..] else s;
    if !Grouped(body) then None
    else Some(if s[0] == '-' then -(Value(Ungrouped(body)) as int) else Value(Ungrouped(body)))
  }

  function PortAt(values: Values, key: string): Option<int> {
    if key in values then Int(values[key]) else None
  }

  predicate PortRange(p: Option<int>) {
    p.Some? && 1 <= p.value <= 65535
  }

  /** Three different valid ports. */
  predicate PortsValid(values: Values) {
    var a, b, c := PortAt(values, "MONGO_PORT_1"), PortAt(values, "MONGO_PORT_2"), PortAt(values, "MONGO_PORT_3");
    PortRange(a) && PortRange(b) && PortRange(c) && a != b && b != c && a != c
  }

  function Ports(values: Values): (ports: seq<nat>)
    requires PortsValid(values)
    ensures |ports| == 3 && forall p :: p in ports ==> p <= 65535
  {
    hide PortAt;
    var a, b, c := PortAt(values, "MONGO_PORT_1"), PortAt(values, "MONGO_PORT_2"), PortAt(values, "MONGO_PORT_3");
    [a.value, b.value, c.value]
  }

  lemma FilledKeys(values: Values)
    requires Filled(values, REQUIRED)
    ensures "DATABASE_HOST" in values && "DATABASE_BIND_IP" in values && "DATABASE_NAME" in values
    ensures "MONGO_ROOT_USERNAME" in values && "MONGO_ROOT_PASSWORD" in values
  {
    hide Contains;
    assert REQUIRED[0] in values && REQUIRED[1] in values && REQUIRED[5] in values && REQUIRED[6] in values && REQUIRED[8] in values;
  }

  /** Every listed listening address is a loopback. */
  predicate LoopbackOnly(bind: string) {
    forall i :: 0 <= i < |SplitOn(bind, ',')| ==> Strip(SplitOn(bind, ',')[i]) in {"127.0.0.1", "::1", "localhost"}
  }

  /** The checks on the database settings themselves. */
  predicate DatabaseSettings(values: Values) {
    Filled(values, REQUIRED) && FilledSettings(values)
  }

  predicate FilledSettings(values: Values)
    requires Filled(values, REQUIRED)
  {
    FilledKeys(values);
    && Routable(values["DATABASE_HOST"]) && !LoopbackOnly(values["DATABASE_BIND_IP"])
    && PortsValid(values) && DatabaseName(values["DATABASE_NAME"])
  }

  /** The address of these settings. */
  function Address(values: Values): string
    requires DatabaseSettings(values)
  {
    FilledKeys(values);
    BuildUri(values["MONGO_ROOT_USERNAME"], values["MONGO_ROOT_PASSWORD"], values["DATABASE_HOST"], Ports(values),
             values["DATABASE_NAME"])
  }

  /** The settings are complete; `others` stands for the Worker and API parts of the contract. */
  predicate Acceptable(values: Values, others: bool) {
    && DatabaseSettings(values) && Filled(values["MONGO_URI" := Address(values)], SHARED)
    && PublicHost(values) && others
  }

  predicate PublicHost(values: Values)
    requires Filled(values, REQUIRED)
  {
    FilledKeys(values);
    Lower(values["DATABASE_HOST"]) !in COMPOSE_HOSTS
  }

  /** A text that, parsed as an address, carries these credentials percent-encoded and this database, and
      lists this host at exactly these ports in this order. */
  predicate Names(uri: string, user: string, password: string, host: string, ports: seq<nat>, database: string) {
    var parsed := UrlSplit(uri);
    && parsed.Ok? && parsed.value.scheme == "mongodb"
    && parsed.value.query == "replicaSet=rs0&authSource=admin" && parsed.value.fragment == ""
    && parsed.value.path == "/" + database
    && var info := UserInfo(parsed.value.netloc);
    && info.0.Some? && Unquote(info.0.value) == Utf8(user)
    && info.1.Some? && Unquote(info.1.value) == Utf8(password)
    && Members(SplitOn(HostText(parsed.value.netloc), ','), host, ports)
  }

  lemma BuiltNames(user: string, password: string, host: string, ports: seq<nat>, database: string)
    requires HostName(host) && ports != [] && DatabaseName(database) && forall p :: p in ports ==> p <= 65535
    ensures Names(BuildUri(user, password, host, ports, database), user, password, host, ports, database)
  {
    hide HostName, DatabaseName, UrlSplit, UserInfo, HostText, BuildUri, NetLoc, Members, Utf8, Unquote, HostList, SplitOn;
    BuiltSplits(user, password, host, ports, database);
    CredentialsExact(user, password, host, ports);
    MembersExact(host, ports);
  }

  /** The three numbers the file gives, in order. */
  predicate PortsAre(values: Values, ports: seq<nat>) {
    && |ports| == 3
    && "MONGO_PORT_1" in values && Int(values["MONGO_PORT_1"]) == Some(ports[0])
    && "MONGO_PORT_2" in values && Int(values["MONGO_PORT_2"]) == Some(ports[1])
    && "MONGO_PORT_3" in values && Int(values["MONGO_PORT_3"]) == Some(ports[2])
  }

  /** The address says what the file says: its user, password and database, and its host at the first, second
      and third port. */
  predicate AddressOf(uri: string, values: Values) {
    && "MONGO_ROOT_USERNAME" in values && "MONGO_ROOT_PASSWORD" in values && "DATABASE_HOST" in values
    && "DATABASE_NAME" in values && PortsValid(values) && PortsAre(values, Ports(values))
    && Names(uri, values["MONGO_ROOT_USERNAME"], values["MONGO_ROOT_PASSWORD"], values["DATABASE_HOST"], Ports(values),
             values["DATABASE_NAME"])
  }

  lemma AddressMeans(values: Values)
    requires DatabaseSettings(values)
    ensures AddressOf(Address(values), values)
  {
    hide Routable, BuildUri, HostName, LoopbackOnly, DatabaseName, Lower, Names, Int;
    FilledKeys(values);
    RoutableLower(values["DATABASE_HOST"]);
    BuiltNames(values["MONGO_ROOT_USERNAME"], values["MONGO_ROOT_PASSWORD"], values["DATABASE_HOST"], Ports(values),
               values["DATABASE_NAME"]);
  }

  lemma {:induction false} DigitsUngrouped(s: string)
    requires AllDigits(s)
    ensures Ungrouped(s) == s
  {
    if s != "" {
      assert s == [s[0]] + s[1..];
      DigitsUngrouped(s[1..]);
    }
  }

  /** A port written in plain decimal is read as that number. */
  lemma IntReads(n: nat)
    ensures Int(Numeral(n)) == Some(n)
  {
    hide Numeral, Value;
    var s := Numeral(n);
    assert AllDigits(s) && s != "" && Value(s) == n;
    assert IsDigit(s[0]) && IsDigit(s[|s| - 1]);
    StripFixed(s);
    DigitsUngrouped(s);
  }

  /** Of all the checks on the finished address only the private-name one can still fail. */
  lemma AddressChecked(values: Values)
    requires DatabaseSettings(values)
    ensures ValidateUri(Address(values), {3}).Ok? <==> PublicHost(values)
    ensures AllPlain(Address(values))
  {
    hide ValidateUri, Routable, BuildUri, HostName, PortsValid, Ports, LoopbackOnly, DatabaseName, Lower;
    FilledKeys(values);
    RoutableLower(values["DATABASE_HOST"]);
    BuiltAccepted(values["MONGO_ROOT_USERNAME"], values["MONGO_ROOT_PASSWORD"], values["DATABASE_HOST"], Ports(values),
                  values["DATABASE_NAME"], {3});
    BuiltPlain(values["MONGO_ROOT_USERNAME"], values["MONGO_ROOT_PASSWORD"], values["DATABASE_HOST"], Ports(values),
               values["DATABASE_NAME"]);
  }

  /** Writing the address does not change what the address is derived from: preparing the same file
      again derives the same one, and by `ReplaceTwice` leaves the same lines. */
  lemma AddressStable(values: Values, uri: string)
    requires DatabaseSettings(values)
    ensures DatabaseSettings(values["MONGO_URI" := uri])
    ensures Address(values["MONGO_URI" := uri]) == Address(values)
  {
    hide Routable, LoopbackOnly, DatabaseName, BuildUri, Int, Contains;
    var again := values["MONGO_URI" := uri];
    forall i | 0 <= i < |REQUIRED|
      ensures REQUIRED[i] in again && again[REQUIRED[i]] == values[REQUIRED[i]]
    {
      KeyDiffers(i);
      assert REQUIRED[i] in values;
    }
    FilledKeys(again);
    FilledKeys(values);
  }

  lemma Unfilled(values: Values, names: seq<string>, i: nat, front: string, behind: string)
    requires i < |names|
    requires names[i] !in values || values[names[i]] == "" || values[names[i]] == front + "REPLACE_" + behind
    ensures !Filled(values, names)
  {
    if names[i] in values && values[names[i]] == front + "REPLACE_" + behind {
      assert "REPLACE_" <= values[names[i]][|front|..];
    }
  }

  /** A setting that is missing, empty or still holds a placeholder refuses the whole file. */
  lemma UnfilledRefused(values: Values, others: bool, key: string, front: string, behind: string)
    requires key in {"DATABASE_HOST", "DATABASE_BIND_IP", "MONGO_PORT_1", "MONGO_PORT_2", "MONGO_PORT_3",
      "MONGO_ROOT_USERNAME", "MONGO_ROOT_PASSWORD", "MONGO_REPLICA_KEY", "DATABASE_NAME"}
    requires key !in values || values[key] == "" || values[key] == front + "REPLACE_" + behind
    ensures !Acceptable(values, others)
  {
    hide FilledSettings, Address, PublicHost;
    assert key in [REQUIRED[0], REQUIRED[1], REQUIRED[2], REQUIRED[3], REQUIRED[4], REQUIRED[5], REQUIRED[6], REQUIRED[7], REQUIRED[8]];
    var i :| 0 <= i < |REQUIRED| && REQUIRED[i] == key;
    Unfilled(values, REQUIRED, i, front, behind);
  }

  /** The same for what this host shares with the others. */
  lemma SharedRefused(values: Values, others: bool, key: string, front: string, behind: string)
    requires key in {"ENCRYPTION_KEY", "BOOTSTRAP_TOKEN", "INTERNAL_TOKEN"}
    requires key !in values || values[key] == "" || values[key] == front + "REPLACE_" + behind
    ensures !Acceptable(values, others)
  {
    hide FilledSettings, PublicHost;
    if DatabaseSettings(values) {
      var candidate := values["MONGO_URI" := Address(values)];
      var i := if key == "ENCRYPTION_KEY" then 1 else if key == "BOOTSTRAP_TOKEN" then 2 else 3;
      assert SHARED[i] == key && key != "MONGO_URI";
      Unfilled(candidate, SHARED, i, front, behind);
    }
  }

  /** What an accepted file has settled: three different ports in range, a database name of plain
      characters, and a host that is neither a loopback nor a private name of the containers. */
  lemma AcceptableSays(values: Values, others: bool)
    requires Acceptable(values, others)
    ensures exists a: int, b: int, c: int ::
              && "MONGO_PORT_1" in values && Int(values["MONGO_PORT_1"]) == Some(a)
              && "MONGO_PORT_2" in values && Int(values["MONGO_PORT_2"]) == Some(b)
              && "MONGO_PORT_3" in values && Int(values["MONGO_PORT_3"]) == Some(c)
              && 1 <= a <= 65535 && 1 <= b <= 65535 && 1 <= c <= 65535 && a != b && b != c && c != a
    ensures "DATABASE_NAME" in values && values["DATABASE_NAME"] != ""
    ensures forall c :: c in values["DATABASE_NAME"] ==> 'a' <= c <= 'z' || 'A' <= c <= 'Z' || '0' <= c <= '9' || c == '_' || c == '-'
    ensures "DATABASE_HOST" in values
    ensures Lower(values["DATABASE_HOST"]) !in {"localhost", "mongo1", "mongo2", "mongo3", "api", "worker", "frontend"}
    ensures others
  {
    hide Int, Lower, Filled, Address;
    FilledKeys(values);
  }

  lemma KeyDiffers(i: nat)
    requires i < |REQUIRED|
    ensures REQUIRED[i] != "MONGO_URI"
  {
    assert "MONGO_URI"[6] == 'U' && |"MONGO_URI"| == 9;
    assert |REQUIRED[i]| != 9;
  }

  lemma UriKey()
    ensures Name("MONGO_URI")
  {
  }

  /** `prepare_platform_environment`. */
  method PreparePlatform(file: EnvFile, others: bool) returns (r: Result<Values>)
    modifies file`text
    ensures r.Ok? <==> && Environment(FileLines(old(file.text))).Ok?
                       && Acceptable(Environment(FileLines(old(file.text))).value, others)
                       && !file.symlink && !file.leftover
    ensures r.Err? ==> file.text == old(file.text)
    ensures r.Ok? ==> var before := FileLines(old(file.text));
                      var values := Environment(before).value;
                      && r.value == values["MONGO_URI" := Address(values)]
                      && FileLines(file.text) == Replaced(before, "MONGO_URI", Address(values))
    ensures r.Ok? ==> "MONGO_URI" in r.value && AddressOf(r.value["MONGO_URI"], r.value)
    ensures r.Ok? && !SetAgain(FileLines(old(file.text)), "MONGO_URI") ==> Environment(FileLines(file.text)) == r
  {
    hide Environment, ValidateUri, Routable, BuildUri, LoopbackOnly, DatabaseName, Address, Filled, Replaced, SetAgain,
         FileLines, AllPlain, Lower, PortsValid, Name, AddressOf;
    var lines := FileLines(file.text);
    var read := file.Read();
    if read.Err? {
      return Err;
    }
    var values := read.value;
    if !Filled(values, REQUIRED) {
      return Err;
    }
    FilledKeys(values);
    if !Routable(values["DATABASE_HOST"]) || LoopbackOnly(values["DATABASE_BIND_IP"]) {
      return Err;
    }
    if !PortsValid(values) || !DatabaseName(values["DATABASE_NAME"]) {
      return Err;
    }
    var uri := Address(values);
    var candidate := values["MONGO_URI" := uri];
    AddressChecked(values);
    if !Filled(candidate, SHARED) || ValidateUri(uri, {3}).Err? || !others {
      return Err;
    }
    assert Name("MONGO_URI") by {
      UriKey();
    }
    var ok := file.ReplaceValue("MONGO_URI", uri);
    if !ok {
      return Err;
    }
    ReplaceExact(lines, "MONGO_URI", uri);
    AddressStable(values, uri);
    AddressMeans(candidate);
    return Ok(candidate);
  }
}
