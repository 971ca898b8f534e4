/** The replica-set address the platform host derives from its own settings. */
module MongoUri {
  import opened Results
  import opened Bytes
  import opened Percent
  import opened Url
  import Dotenv

  const QUERY := "replicaSet=rs0&authSource=admin"
  const COMPOSE_HOSTS: set<string> := {"mongo1", "mongo2", "mongo3", "api", "worker", "frontend"}

  // ----- hosts ------------------------------------------------------------------------------------

  /** `_hosts`: one lower-cased host per member, empty where an entry has none. */
  function Hosts(uri: string): Result<seq<string>> {
    var parsed := UrlSplit(uri);
    if parsed.Err? then Err
    else if parsed.value.scheme == "mongodb" then EntryHosts(SplitOn(HostText(parsed.value.netloc), ','))
    else EntryHosts([parsed.value.netloc])
  }

  function EntryHosts(entries: seq<string>): Result<seq<string>> {
    if entries == [] then Ok([]) else
    var first := UrlSplit("//" + entries[0]);
    var others := EntryHosts(entries[1..]);
    if first.Err? || others.Err? then Err else Ok([Hostname(first.value.netloc)] + others.value)
  }

  predicate AlphaNumeric(c: char) {
    Letter(c) || IsDigit(c)
  }

  /** `[A-Za-z0-9](?:[A-Za-z0-9.-]{0,251}[A-Za-z0-9])?`. */
  predicate HostName(s: string) {
    && 1 <= |s| <= 253 && AlphaNumeric(s[0]) && AlphaNumeric(s[|s| - 1])
    && forall k :: 0 <= k < |s| ==> AlphaNumeric(s[k]) || s[k] in ".-"
  }

  predicate Octet(s: string) {
    1 <= |s| <= 3 && AllDigits(s) && (|s| > 1 ==> s[0] != '0') && Value(s) <= 255
  }

  predicate AddressV4(s: string) {
    var parts := SplitOn(s, '.');
    |parts| == 4 && forall k :: 0 <= k < 4 ==> Octet(parts[k])
  }

  /** `_routable_host`, for names and IPv4 addresses: neither loopback nor unspecified. */
  predicate Routable(host: string) {
    && host != "" && Lower(host) != "localhost" && host != "0.0.0.0"
    && (AddressV4(host) ==> Value(SplitOn(host, '.')[0]) != 127)
    && (AddressV4(host) || HostName(host))
  }

  /** An IPv4 address given by its numbers. */
  function Dotted(a: nat, b: nat, c: nat, d: nat): string {
    Numeral(a) + "." + Numeral(b) + "." + Numeral(c) + "." + Numeral(d)
  }

  lemma OctetText(n: nat)
    requires n <= 255
    ensures Octet(Numeral(n)) && '.' !in Numeral(n)
    ensures Numeral(n) == "0" <==> n == 0
  {
    assert n / 10 < 26 && (n >= 10 ==> |Numeral(n)| == 1 + |Numeral(n / 10)|);
    assert n / 10 >= 10 ==> |Numeral(n / 10)| == 1 + |Numeral(n / 10 / 10)|;
    forall k | 0 <= k < |Numeral(n)|
      ensures Numeral(n)[k] != '.'
    {
      assert IsDigit(Numeral(n)[k]);
    }
  }

  lemma FourParts(a: string, b: string, c: string, d: string)
    requires '.' !in a && '.' !in b && '.' !in c && '.' !in d
    ensures SplitOn(a + "." + b + "." + c + "." + d, '.') == [a, b, c, d]
  {
    hide SplitOn;
    SplitNone(d, '.');
    SplitFirst(c, '.', d);
    SplitFirst(b, '.', c + "." + d);
    SplitFirst(a, '.', b + "." + c + "." + d);
    assert a + "." + b + "." + c + "." + d == a + ['.'] + (b + "." + c + "." + d);
    assert b + "." + c + "." + d == b + ['.'] + (c + "." + d);
    assert c + "." + d == c + ['.'] + d;
  }

  /** An IPv4 address is routable exactly when its first number is not 127 and not all four are 0. */
  lemma DottedRoutable(a: nat, b: nat, c: nat, d: nat)
    requires a <= 255 && b <= 255 && c <= 255 && d <= 255
    ensures Routable(Dotted(a, b, c, d)) <==> a != 127 && !(a == b == c == d == 0)
  {
    hide SplitOn, Numeral, Octet, Lower;
    OctetText(a);
    OctetText(b);
    OctetText(c);
    OctetText(d);
    var s := Dotted(a, b, c, d);
    FourParts(Numeral(a), Numeral(b), Numeral(c), Numeral(d));
    FourParts("0", "0", "0", "0");
    assert AddressV4(s) && Value(SplitOn(s, '.')[0]) == a;
    assert "0" + "." + "0" + "." + "0" + "." + "0" == "0.0.0.0";
    assert Numeral(a)[0] == s[0] && IsDigit(s[0]);
    assert Lower(s) != "localhost" by {
      assert Lower(s)[0] == LowerChar(s[0]) && "localhost"[0] == 'l';
    }
  }

  // ----- the address ------------------------------------------------------------------------------

  predicate DatabaseName(s: string) {
    s != "" && forall c :: c in s ==> AlphaNumeric(c) || c in "_-"
  }

  function Entry(host: string, port: nat): string {
    host + ":" + Numeral(port)
  }

  function HostList(host: string, ports: seq<nat>): string
    requires ports != []
  {
    if |ports| == 1 then Entry(host, ports[0]) else Entry(host, ports[0]) + "," + HostList(host, ports[1..])
  }

  function NetLoc(user: string, password: string, host: string, ports: seq<nat>): string
    requires ports != []
  {
    Quote(user) + ":" + Quote(password) + "@" + HostList(host, ports)
  }

  function BuildUri(user: string, password: string, host: string, ports: seq<nat>, database: string): string
    requires ports != []
  {
    "mongodb" + "://" + NetLoc(user, password, host, ports) + ("/" + database) + "?" + QUERY
  }

  lemma NumeralClean(n: nat)
    ensures forall c :: c in Numeral(n) ==> IsDigit(c)
  {
    var s := Numeral(n);
    assert forall k :: 0 <= k < |s| ==> IsDigit(s[k]);
  }

  lemma EntryClean(host: string, port: nat)
    requires HostName(host)
    ensures forall c :: c in Entry(host, port) ==> AlphaNumeric(c) || c in ".-:"
  {
    hide Numeral;
    NumeralClean(port);
  }

  lemma {:induction false} HostListClean(host: string, ports: seq<nat>)
    requires HostName(host) && ports != []
    ensures forall c :: c in HostList(host, ports) ==> AlphaNumeric(c) || c in ".-:,"
  {
    hide Entry, HostName;
    EntryClean(host, ports[0]);
    if |ports| > 1 {
      HostListClean(host, ports[1..]);
    }
  }

  predicate Visible(s: string) {
    forall c :: c in s ==> '!' <= c <= '~'
  }

  lemma PartsClean(user: string, password: string, host: string, ports: seq<nat>, database: string)
    requires HostName(host) && ports != [] && DatabaseName(database)
    ensures Visible(NetLoc(user, password, host, ports)) && Free(NetLoc(user, password, host, ports), "/?#[]")
    ensures Visible("/" + database) && Free("/" + database, "?#")
    ensures Visible(QUERY) && Free(QUERY, "#")
  {
    hide Quote, HostList, HostName, NetLoc, AlphaNumeric;
    NetLocClean(user, password, host, ports);
    DatabaseClean(database);
  }

  lemma NetLocClean(user: string, password: string, host: string, ports: seq<nat>)
    requires HostName(host) && ports != []
    ensures Visible(NetLoc(user, password, host, ports)) && Free(NetLoc(user, password, host, ports), "/?#[]")
  {
    hide Quote, HostList, HostName;
    HostListClean(host, ports);
  }

  lemma DatabaseClean(database: string)
    requires DatabaseName(database)
    ensures Visible("/" + database) && Free("/" + database, "?#")
  {
  }

  /** Whatever the credentials contain, they cannot move the border of the host list or of the path. */
  lemma BuiltSplits(user: string, password: string, host: string, ports: seq<nat>, database: string)
    requires HostName(host) && ports != [] && DatabaseName(database)
    ensures UrlSplit(BuildUri(user, password, host, ports, database)) ==
              Ok(Url("mongodb", NetLoc(user, password, host, ports), "/" + database, QUERY, ""))
  {
    hide NetLoc, HostName, UrlSplit;
    PartsClean(user, password, host, ports, database);
    Reassembled("mongodb", NetLoc(user, password, host, ports), "/" + database, QUERY);
    assert Lower("mongodb") == "mongodb";
  }

  /** The credentials come back exactly, percent-decoded. */
  lemma CredentialsExact(user: string, password: string, host: string, ports: seq<nat>)
    requires HostName(host) && ports != []
    ensures var info := UserInfo(NetLoc(user, password, host, ports));
            info.0.Some? && Unquote(info.0.value) == Utf8(user) && info.1.Some? && Unquote(info.1.value) == Utf8(password)
    ensures HostText(NetLoc(user, password, host, ports)) == HostList(host, ports)
  {
    hide Quote, HostList, HostName, Unquote, UserInfo, HostText;
    HostListClean(host, ports);
    CredentialsBack(Quote(user), Quote(password), HostList(host, ports));
    QuoteInverts(user);
    QuoteInverts(password);
  }

  lemma HostFree(host: string)
    requires HostName(host)
    ensures Free(host, ":@[%,") && Free(host, ":@[%") && Free(host, "/?#[]") && Free(host, ",")
  {
    forall c | c in host
      ensures AlphaNumeric(c) || c in ".-"
    {
      var k :| 0 <= k < |host| && host[k] == c;
    }
  }

  /** One member, read as the checks read it. */
  lemma EntryReads(host: string, port: nat)
    requires HostName(host) && port <= 65535
    ensures UrlSplit("//" + Entry(host, port)).Ok?
    ensures var netloc := UrlSplit("//" + Entry(host, port)).value.netloc;
            Hostname(netloc) == Lower(host) && Port(netloc) == Ok(Some(port))
  {
    hide Entry, UrlSplit, Hostname, Port, HostName;
    EntryClean(host, port);
    assert forall c :: AlphaNumeric(c) || c in ".-:" ==> c > ' ' && c !in "/?#[]";
    HostAlone(Entry(host, port));
    EntryParts(host, port);
  }

  lemma EntryParts(host: string, port: nat)
    requires HostName(host) && port <= 65535
    ensures Hostname(Entry(host, port)) == Lower(host) && Port(Entry(host, port)) == Ok(Some(port))
  {
    hide Hostname, Port, HostName;
    HostFree(host);
    EntryBack(host, port);
  }

  function Copies(s: string, n: nat): (r: seq<string>)
    ensures |r| == n && forall k :: 0 <= k < n ==> r[k] == s
  {
    if n == 0 then [] else [s] + Copies(s, n - 1)
  }

  lemma FirstHost(entry: string, others: seq<string>, host: string, hosts: seq<string>)
    requires UrlSplit("//" + entry).Ok? && Hostname(UrlSplit("//" + entry).value.netloc) == host
    requires EntryHosts(others) == Ok(hosts)
    ensures EntryHosts([entry] + others) == Ok([host] + hosts)
  {
    hide UrlSplit, Hostname;
    assert ([entry] + others)[1..] == others;
  }

  lemma {:induction false} EntriesBack(host: string, ports: seq<nat>)
    requires HostName(host) && ports != [] && forall p :: p in ports ==> p <= 65535
    ensures EntryHosts(SplitOn(HostList(host, ports), ',')) == Ok(Copies(Lower(host), |ports|))
  {
    hide Entry, EntryHosts, HostName, SplitOn, UrlSplit, Hostname, Port;
    var entry := Entry(host, ports[0]);
    EntryClean(host, ports[0]);
    assert ports[0] in ports;
    EntryReads(host, ports[0]);
    if |ports| == 1 {
      SplitNone(entry, ',');
      assert EntryHosts([]) == Ok([]) by {
        NoEntries();
      }
      FirstHost(entry, [], Lower(host), []);
      assert [entry] + [] == [entry];
      assert Copies(Lower(host), 0) == [];
    } else {
      var others := HostList(host, ports[1..]);
      assert forall p :: p in ports[1..] ==> p in ports;
      EntriesBack(host, ports[1..]);
      SplitFirst(entry, ',', others);
      FirstHost(entry, SplitOn(others, ','), Lower(host), Copies(Lower(host), |ports| - 1));
      assert HostList(host, ports) == entry + [','] + others;
    }
  }

  lemma NoEntries()
    ensures EntryHosts([]) == Ok([])
  {
  }

  /** The members are exactly one lower-cased host per port. */
  lemma HostsExact(user: string, password: string, host: string, ports: seq<nat>, database: string)
    requires HostName(host) && ports != [] && DatabaseName(database) && forall p :: p in ports ==> p <= 65535
    ensures Hosts(BuildUri(user, password, host, ports, database)) == Ok(Copies(Lower(host), |ports|))
  {
    hide HostName, UrlSplit, NetLoc, EntryHosts, SplitOn, BuildUri, HostText;
    BuiltSplits(user, password, host, ports, database);
    CredentialsExact(user, password, host, ports);
    EntriesBack(host, ports);
  }

  /** One member of a list is this host, as written there and as the checks read it, at this port. */
  predicate Member(entry: string, host: string, port: nat) {
    && host + ":" <= entry
    && UrlSplit("//" + entry).Ok?
    && Hostname(UrlSplit("//" + entry).value.netloc) == Lower(host)
    && Port(UrlSplit("//" + entry).value.netloc) == Ok(Some(port))
  }

  /** A list of members names one host at these ports, in this order. */
  predicate Members(entries: seq<string>, host: string, ports: seq<nat>) {
    |entries| == |ports| && forall k :: 0 <= k < |ports| ==> Member(entries[k], host, ports[k])
  }

  lemma EntryMember(host: string, port: nat)
    requires HostName(host) && port <= 65535
    ensures Member(Entry(host, port), host, port)
  {
    hide HostName, UrlSplit, Hostname, Port, Numeral;
    EntryReads(host, port);
  }

  lemma MembersSnoc(entry: string, others: seq<string>, host: string, ports: seq<nat>)
    requires ports != [] && Member(entry, host, ports[0]) && Members(others, host, ports[1..])
    ensures Members([entry] + others, host, ports)
  {
    hide Member;
    forall k | 0 <= k < |ports|
      ensures Member(([entry] + others)[k], host, ports[k])
    {
      if k > 0 {
        assert ports[k] == ports[1..][k - 1] && ([entry] + others)[k] == others[k - 1];
      }
    }
  }

  /** The host list splits at its commas into one member per port, in the ports' order. */
  lemma {:induction false} MembersExact(host: string, ports: seq<nat>)
    requires HostName(host) && ports != [] && forall p :: p in ports ==> p <= 65535
    ensures Members(SplitOn(HostList(host, ports), ','), host, ports)
  {
    hide Entry, HostName, SplitOn, Member;
    var entry := Entry(host, ports[0]);
    EntryClean(host, ports[0]);
    assert ports[0] in ports;
    EntryMember(host, ports[0]);
    if |ports| == 1 {
      SplitNone(entry, ',');
    } else {
      assert forall p :: p in ports[1..] ==> p in ports;
      MembersExact(host, ports[1..]);
      SplitFirst(entry, ',', HostList(host, ports[1..]));
      MembersSnoc(entry, SplitOn(HostList(host, ports[1..]), ','), host, ports);
    }
  }

  lemma EntryDetermines(host: string, port: nat, host': string, port': nat)
    requires HostName(host) && HostName(host') && Entry(host, port) == Entry(host', port')
    ensures host == host' && port == port'
  {
    hide HostName, Numeral;
    HostFree(host);
    HostFree(host');
    ColonAt(host, Numeral(port));
    ColonAt(host', Numeral(port'));
    var entry := Entry(host, port);
    assert entry[..|host|] == host && entry[|host| + 1..] == Numeral(port);
    assert entry[..|host'|] == host' && entry[|host'| + 1..] == Numeral(port');
  }

  lemma ColonAt(host: string, digits: string)
    requires Free(host, ":@[%,")
    ensures First(host + ":" + digits, ":") == |host|
  {
    var entry := host + ":" + digits;
    forall k | 0 <= k < |host|
      ensures entry[k] !in ":"
    {
      assert entry[k] == host[k] && host[k] in host;
    }
    FirstIs(entry, ":", |host|);
  }

  lemma {:induction false} ListDetermines(host: string, ports: seq<nat>, host': string, ports': seq<nat>)
    requires HostName(host) && ports != [] && HostName(host') && ports' != []
    requires HostList(host, ports) == HostList(host', ports')
    ensures host == host' && ports == ports'
  {
    hide HostName, Entry;
    ListSplits(host, ports);
    ListSplits(host', ports');
    var entries := SplitOn(HostList(host, ports), ',');
    EntryDetermines(host, ports[0], host', ports'[0]);
    if |ports| > 1 {
      ListDetermines(host, ports[1..], host', ports'[1..]);
    }
    assert ports == [ports[0]] + ports[1..] && ports' == [ports'[0]] + ports'[1..];
  }

  /** Splitting the host list at its commas gives the first entry and leaves the rest of the list. */
  lemma ListSplits(host: string, ports: seq<nat>)
    requires HostName(host) && ports != []
    ensures var entries := SplitOn(HostList(host, ports), ',');
            && entries[0] == Entry(host, ports[0]) && (|entries| == 1 <==> |ports| == 1)
            && (|ports| > 1 ==> HostList(host, ports) == entries[0] + "," + HostList(host, ports[1..]))
  {
    hide HostName, Entry, SplitOn;
    EntryClean(host, ports[0]);
    if |ports| == 1 {
      SplitNone(Entry(host, ports[0]), ',');
    } else {
      SplitFirst(Entry(host, ports[0]), ',', HostList(host, ports[1..]));
    }
  }

  /** Settings that differ anywhere give different addresses. */
  lemma BuildInjective(user: string, password: string, host: string, ports: seq<nat>, database: string,
                       user': string, password': string, host': string, ports': seq<nat>, database': string)
    requires HostName(host) && ports != [] && DatabaseName(database)
    requires HostName(host') && ports' != [] && DatabaseName(database')
    requires BuildUri(user, password, host, ports, database) == BuildUri(user', password', host', ports', database')
    ensures user == user' && password == password' && database == database' && host == host' && ports == ports'
  {
    hide HostName, UrlSplit, NetLoc, BuildUri, UserInfo, HostText, HostList;
    BuiltSplits(user, password, host, ports, database);
    BuiltSplits(user', password', host', ports', database');
    CredentialsExact(user, password, host, ports);
    CredentialsExact(user', password', host', ports');
    Utf8Injective(user, user');
    Utf8Injective(password, password');
    assert ("/" + database)[1..] == ("/" + database')[1..];
    ListDetermines(host, ports, host', ports');
  }

  // ----- host names in lower case -----------------------------------------------------------------

  lemma {:induction false} SplitHolds(s: string, c: char, k: nat)
    requires k < |s| && s[k] != c
    ensures exists i :: 0 <= i < |SplitOn(s, c)| && s[k] in SplitOn(s, c)[i]
  {
    hide First;
    var i := First(s, [c]);
    var parts := SplitOn(s, c);
    if k < i {
      assert s[..i][k] == s[k] && s[k] in parts[0];
    } else if i < |s| {
      assert k > i && s[i + 1..][k - i - 1] == s[k];
      SplitHolds(s[i + 1..], c, k - i - 1);
      var j :| 0 <= j < |SplitOn(s[i + 1..], c)| && s[k] in SplitOn(s[i + 1..], c)[j];
      assert parts[j + 1] == SplitOn(s[i + 1..], c)[j];
    }
  }

  function Total(parts: seq<string>): nat {
    if parts == [] then 0 else |parts[0]| + Total(parts[1..])
  }

  lemma {:induction false} SplitLength(s: string, c: char)
    ensures |s| == Total(SplitOn(s, c)) + |SplitOn(s, c)| - 1
    ensures SplitOn(s, c)[0] != "" ==> s != "" && s[0] == SplitOn(s, c)[0][0]
    ensures var last := SplitOn(s, c)[|SplitOn(s, c)| - 1]; last != "" ==> s != "" && s[|s| - 1] == last[|last| - 1]
  {
    var i := First(s, [c]);
    if i < |s| {
      SplitLength(s[i + 1..], c);
      assert SplitOn(s, c)[1..] == SplitOn(s[i + 1..], c);
    } else {
      assert [s][1..] == [];
    }
  }

  lemma AddressChars(s: string)
    requires AddressV4(s)
    ensures forall k :: 0 <= k < |s| ==> IsDigit(s[k]) || s[k] == '.'
  {
    forall k | 0 <= k < |s| && s[k] != '.'
      ensures IsDigit(s[k])
    {
      SplitHolds(s, '.', k);
      var i :| 0 <= i < 4 && s[k] in SplitOn(s, '.')[i];
      assert Octet(SplitOn(s, '.')[i]);
    }
  }

  lemma AddressIsName(s: string)
    requires AddressV4(s)
    ensures HostName(s)
  {
    hide SplitOn;
    AddressChars(s);
    SplitLength(s, '.');
    var parts := SplitOn(s, '.');
    assert Octet(parts[0]) && Octet(parts[1]) && Octet(parts[2]) && Octet(parts[3]);
    assert Total(parts) == |parts[0]| + |parts[1]| + |parts[2]| + |parts[3]| by {
      assert parts[1..][1..] == parts[2..] && parts[2..][1..] == parts[3..] && parts[3..][1..] == [];
      assert Total(parts[3..]) == |parts[3]|;
      assert Total(parts[2..]) == |parts[2]| + Total(parts[3..]);
      assert Total(parts[1..]) == |parts[1]| + Total(parts[2..]);
    }
  }

  lemma DigitsLower(s: string)
    requires forall k :: 0 <= k < |s| ==> IsDigit(Lower(s)[k]) || Lower(s)[k] == '.'
    ensures Lower(s) == s
  {
    forall k | 0 <= k < |s|
      ensures Lower(s)[k] == s[k]
    {
    }
  }

  lemma NameLower(s: string)
    requires HostName(s)
    ensures HostName(Lower(s))
  {
    hide Lower;
    var r := Lower(s);
    forall k | 0 <= k < |s|
      ensures (AlphaNumeric(r[k]) <==> AlphaNumeric(s[k])) && (AlphaNumeric(r[k]) || r[k] in ".-")
    {
      assert r[k] == LowerChar(s[k]);
    }
  }

  /** A routable host is a host name, and lower-casing it changes nothing about that. */
  lemma RoutableLower(host: string)
    requires Routable(host)
    ensures HostName(host) && Routable(Lower(host))
  {
    hide AddressV4, HostName, Lower, SplitOn;
    var lower := Lower(host);
    LowerTwice(host);
    if AddressV4(host) {
      AddressIsName(host);
      AddressChars(host);
      assert lower == host by {
        DigitsKept(host);
      }
    } else {
      NameLower(host);
      if AddressV4(lower) {
        AddressChars(lower);
        DigitsLower(host);
      }
      if lower == "0.0.0.0" {
        DigitsLower(host);
      }
    }
  }

  lemma DigitsKept(s: string)
    requires forall k :: 0 <= k < |s| ==> IsDigit(s[k]) || s[k] == '.'
    ensures Lower(s) == s
  {
  }

  // ----- the check ---------------------------------------------------------------------------------

  function Spaced(s: string): string {
    if s == "" then "" else [if s[0] == '+' then ' ' else s[0]] + Spaced(s[1..])
  }

  /** The non-blank values a query gives a name, decoded: one entry of `parse_qs`. */
  function QueryValues(fields: seq<string>, name: seq<octet>): seq<seq<octet>> {
    if fields == [] then [] else
    var i := First(fields[0], "=");
    (if i + 1 < |fields[0]| && Unquote(Spaced(fields[0][..i])) == name
     then [Unquote(Spaced(fields[0][i + 1..]))] else []) + QueryValues(fields[1..], name)
  }

  function Query(query: string, name: string): seq<seq<octet>> {
    QueryValues(SplitOn(query, '&'), Utf8(name))
  }

  function LeftSlashes(s: string): string {
    if s != "" && s[0] == '/' then LeftSlashes(s[1..]) else s
  }

  predicate MembersAllowed(hosts: seq<string>) {
    forall k :: 0 <= k < |hosts| ==> hosts[k] != "" && Lower(hosts[k]) !in COMPOSE_HOSTS && Routable(hosts[k])
  }

  /** `_validate_uri` on an address that was filled in: the database it names, still as octets. */
  function ValidateUri(uri: string, members: set<nat>): Result<seq<octet>> {
    var parsed := UrlSplit(uri);
    if parsed.Err? || parsed.value.scheme != "mongodb" || '@' !in parsed.value.netloc then Err else
    var hosts := Hosts(uri);
    if hosts.Err? || |hosts.value| !in members || !MembersAllowed(hosts.value) then Err
    else if LeftSlashes(parsed.value.path) == ""
            || Query(parsed.value.query, "replicaSet") != [Utf8("rs0")]
            || Query(parsed.value.query, "authSource") != [Utf8("admin")] then Err
    else Ok(Unquote(LeftSlashes(parsed.value.path)))
  }

  lemma {:induction false} SpacedSame(s: string)
    requires '+' !in s
    ensures Spaced(s) == s
  {
    if s != "" {
      SpacedSame(s[1..]);
    }
  }

  lemma FieldReads(name: string, value: string, wanted: string)
    requires Free(name, "=+%") && Free(value, "+%") && value != ""
    ensures QueryValues([name + "=" + value], Utf8(wanted)) == if name == wanted then [Utf8(value)] else []
  {
    hide Unquote, Spaced, Utf8;
    var field := name + "=" + value;
    forall k | 0 <= k < |name|
      ensures field[k] !in "="
    {
      assert field[k] == name[k] && name[k] in name;
    }
    FirstIs(field, "=", |name|);
    assert field[..|name|] == name && field[|name| + 1..] == value;
    assert '+' !in name && '+' !in value && '%' !in name && '%' !in value;
    SpacedSame(name);
    SpacedSame(value);
    UnquoteLiteral(name);
    UnquoteLiteral(value);
    if Utf8(name) == Utf8(wanted) {
      Utf8Injective(name, wanted);
    }
    assert [field][1..] == [];
  }

  lemma TwoFields(first: string, second: string, wanted: seq<octet>)
    ensures QueryValues([first, second], wanted) == QueryValues([first], wanted) + QueryValues([second], wanted)
  {
    hide Unquote, Spaced;
    assert [first, second][1..] == [second] && [first][1..] == [];
    assert QueryValues([], wanted) == [];
  }

  lemma QuerySplits()
    ensures SplitOn(QUERY, '&') == ["replicaSet" + "=" + "rs0", "authSource" + "=" + "admin"]
  {
    hide SplitOn;
    var first, second := "replicaSet" + "=" + "rs0", "authSource" + "=" + "admin";
    assert QUERY == first + ['&'] + second;
    SplitFirst(first, '&', second);
    SplitNone(second, '&');
  }

  lemma QueryReads()
    ensures Query(QUERY, "replicaSet") == [Utf8("rs0")] && Query(QUERY, "authSource") == [Utf8("admin")]
  {
    hide Utf8, SplitOn, QueryValues, QUERY;
    var first, second := "replicaSet" + "=" + "rs0", "authSource" + "=" + "admin";
    QuerySplits();
    TwoFields(first, second, Utf8("replicaSet"));
    TwoFields(first, second, Utf8("authSource"));
    assert "replicaSet"[0] != "authSource"[0];
    FieldReads("replicaSet", "rs0", "replicaSet");
    FieldReads("replicaSet", "rs0", "authSource");
    FieldReads("authSource", "admin", "replicaSet");
    FieldReads("authSource", "admin", "authSource");
  }

  lemma DatabaseReads(database: string)
    requires DatabaseName(database)
    ensures LeftSlashes("/" + database) == database && Unquote(database) == Utf8(database)
  {
    assert database[0] in database;
    assert ("/" + database)[1..] == database;
    assert '%' !in database;
    UnquoteLiteral(database);
  }

  /** The built address passes the shared check exactly when its host is routable in lower case and is
      not one of the private names; it then names the database it was built for. */
  lemma BuiltAccepted(user: string, password: string, host: string, ports: seq<nat>, database: string, members: set<nat>)
    requires HostName(host) && ports != [] && DatabaseName(database) && forall p :: p in ports ==> p <= 65535
    ensures var r := ValidateUri(BuildUri(user, password, host, ports, database), members);
            if |ports| in members && Lower(host) !in COMPOSE_HOSTS && Routable(Lower(host))
            then r == Ok(Utf8(database)) else r == Err
  {
    hide HostName, UrlSplit, NetLoc, BuildUri, Hosts, Routable, Query, Unquote, LeftSlashes, COMPOSE_HOSTS;
    BuiltSplits(user, password, host, ports, database);
    HostsExact(user, password, host, ports, database);
    QueryReads();
    DatabaseReads(database);
    LowerTwice(host);
    assert '@' in NetLoc(user, password, host, ports) by {
      AtSign(user, password, host, ports);
    }
    var hosts := Copies(Lower(host), |ports|);
    assert Lower(host) != "" by {
      NotEmpty(host);
    }
    assert MembersAllowed(hosts) <==> Lower(host) !in COMPOSE_HOSTS && Routable(Lower(host)) by {
      assert hosts[0] == Lower(host);
    }
  }

  lemma NotEmpty(host: string)
    requires HostName(host)
    ensures Lower(host) != ""
  {
    assert |Lower(host)| == |host|;
  }

  lemma AtSign(user: string, password: string, host: string, ports: seq<nat>)
    requires ports != []
    ensures '@' in NetLoc(user, password, host, ports)
  {
    hide Quote, HostList;
  }

  /** The address survives being quoted into the file and read back. */
  lemma BuiltPlain(user: string, password: string, host: string, ports: seq<nat>, database: string)
    requires HostName(host) && ports != [] && DatabaseName(database)
    ensures Dotenv.AllPlain(BuildUri(user, password, host, ports, database))
  {
    hide HostName, NetLoc;
    PartsClean(user, password, host, ports, database);
    assert Visible("mongodb") && Visible("://") && Visible("?");
  }
}
