/** The part of `urllib.parse` the deployment scripts rely on. */
module Url {
  import opened Results
  import opened Bytes

  datatype Url = Url(scheme: string, netloc: string, path: string, query: string, fragment: string)

  // ----- searching --------------------------------------------------------------------------------

  /** Position of the first character of `s` that is in `cs`, or the length. */
  function First(s: string, cs: string): (i: nat)
    ensures i <= |s| && (i < |s| ==> s[i] in cs)
    ensures forall k :: 0 <= k < i ==> s[k] !in cs
  {
    if s == "" || s[0] in cs then 0 else 1 + First(s[1..], cs)
  }

  lemma FirstIs(s: string, cs: string, n: nat)
    requires n <= |s| && (n < |s| ==> s[n] in cs)
    requires forall k :: 0 <= k < n ==> s[k] !in cs
    ensures First(s, cs) == n
  {
  }

  /** Position just behind the last `c`, or 0. */
  function BehindLast(s: string, c: char): (i: nat)
    ensures i <= |s| && (i > 0 ==> s[i - 1] == c)
    ensures forall k :: i <= k < |s| ==> s[k] != c
  {
    if s == "" || s[|s| - 1] == c then |s| else BehindLast(s[..|s| - 1], c)
  }

  lemma BehindLastIs(s: string, c: char, n: nat)
    requires n <= |s| && (n > 0 ==> s[n - 1] == c)
    requires forall k :: n <= k < |s| ==> s[k] != c
    ensures BehindLast(s, c) == n
  {
    var i := BehindLast(s, c);
    assert i > 0 ==> s[i - 1] == c;
  }

  /** `str.split` on one character. */
  function SplitOn(s: string, c: char): (parts: seq<string>)
    ensures parts != []
  {
    var i := First(s, [c]);
    if i == |s| then [s] else [s[..i]] + SplitOn(s[i + 1..], c)
  }

  lemma SplitFirst(head: string, c: char, tail: string)
    requires c !in head
    ensures SplitOn(head + [c] + tail, c) == [head] + SplitOn(tail, c)
  {
    var s := head + [c] + tail;
    FirstIs(s, [c], |head|);
    assert s[..|head|] == head && s[|head| + 1..] == tail;
  }

  lemma SplitNone(s: string, c: char)
    requires c !in s
    ensures SplitOn(s, c) == [s]
  {
    FirstIs(s, [c], |s|);
  }

  /** ASCII `str.lower`. */
  function LowerChar(c: char): char {
    if 'A' <= c <= 'Z' then c - 'A' + 'a' else c
  }

  function Lower(s: string): (r: string)
    ensures |r| == |s| && forall k :: 0 <= k < |s| ==> r[k] == LowerChar(s[k])
  {
    if s == "" then "" else [LowerChar(s[0])] + Lower(s[1..])
  }

  lemma LowerTwice(s: string)
    ensures Lower(Lower(s)) == Lower(s)
  {
  }

  // ----- splitting a URL --------------------------------------------------------------------------

  predicate SchemeChar(c: char) {
    'a' <= c <= 'z' || 'A' <= c <= 'Z' || '0' <= c <= '9' || c in "+-."
  }

  predicate Letter(c: char) {
    'a' <= c <= 'z' || 'A' <= c <= 'Z'
  }

  function LeftTrimmed(s: string): string {
    if s != "" && s[0] <= ' ' then LeftTrimmed(s[1..]) else s
  }

  function Untabbed(s: string): string {
    if s == "" then "" else (if s[0] in "\t\r\n" then "" else [s[0]]) + Untabbed(s[1..])
  }

  predicate Clean(s: string) {
    forall c :: c in s ==> c > ' '
  }

  lemma {:induction false} CleanKept(s: string)
    requires Clean(s)
    ensures Untabbed(s) == s
  {
    if s != "" {
      assert s[0] in s;
      forall c | c in s[1..]
        ensures c > ' '
      {
        assert c in s;
      }
      CleanKept(s[1..]);
      assert [s[0]] + s[1..] == s;
    }
  }

  /** Where the scheme ends, if there is one. */
  function Colon(url: string): (i: nat)
    ensures i < |url| || i == 0
  {
    var i := First(url, ":");
    if 0 < i < |url| && Letter(url[0]) && forall k :: 0 <= k < i ==> SchemeChar(url[k]) then i else 0
  }

  /** What follows the scheme. */
  function Authority(scheme: string, url: string): Result<Url> {
    if !("//" <= url) then Ok(Tail(scheme, "", url)) else
    var rest := url[2..];
    var i := First(rest, "/?#");
    var netloc := rest[..i];
    if ('[' in netloc) != (']' in netloc) then Err else Ok(Tail(scheme, netloc, rest[i..]))
  }

  function Tail(scheme: string, netloc: string, rest: string): Url {
    var hash := First(rest, "#");
    var front := rest[..hash];
    var mark := First(front, "?");
    Url(scheme, netloc, front[..mark], if mark == |front| then "" else front[mark + 1..],
        if hash == |rest| then "" else rest[hash + 1..])
  }

  /** `urlsplit`. */
  function UrlSplit(text: string): Result<Url> {
    var url := Untabbed(LeftTrimmed(text));
    var i := Colon(url);
    if i == 0 then Authority("", url) else Authority(Lower(url[..i]), url[i + 1..])
  }

  predicate Scheme(s: string) {
    s != "" && Letter(s[0]) && forall c :: c in s ==> SchemeChar(c)
  }

  predicate Free(s: string, cs: string) {
    forall c :: c in s ==> c !in cs
  }

  /** A URL put together from delimiter-free parts splits into the same parts. */
  lemma Reassembled(scheme: string, netloc: string, path: string, query: string)
    requires Scheme(scheme) && Clean(netloc) && Clean(path) && Clean(query)
    requires Free(netloc, "/?#[]") && Free(path, "?#") && Free(query, "#")
    requires path != "" && path[0] == '/'
    ensures UrlSplit(scheme + "://" + netloc + path + "?" + query) == Ok(Url(Lower(scheme), netloc, path, query, ""))
  {
    hide Tail, Authority;
    var rest := "//" + netloc + path + "?" + query;
    var uri := scheme + "://" + netloc + path + "?" + query;
    assert uri == scheme + ":" + rest;
    assert scheme[0] in scheme && uri[0] == scheme[0];
    assert Clean(uri) by {
      assert Clean(scheme) && Clean("://") && Clean("?");
    }
    CleanKept(uri);
    assert LeftTrimmed(uri) == uri;
    ColonBehind(scheme, rest);
    assert uri[..|scheme|] == scheme && uri[|scheme| + 1..] == rest;
    AuthorityParts(Lower(scheme), netloc, path, query);
  }

  lemma ColonBehind(scheme: string, rest: string)
    requires Scheme(scheme)
    ensures Colon(scheme + ":" + rest) == |scheme|
  {
    var uri := scheme + ":" + rest;
    forall k | 0 <= k < |scheme|
      ensures SchemeChar(uri[k]) && uri[k] !in ":"
    {
      assert uri[k] == scheme[k] && scheme[k] in scheme;
    }
    FirstIs(uri, ":", |scheme|);
    assert scheme[0] in scheme;
  }

  lemma AuthorityParts(scheme: string, netloc: string, path: string, query: string)
    requires Free(netloc, "/?#[]") && Free(path, "?#") && Free(query, "#")
    requires path != "" && path[0] == '/'
    ensures Authority(scheme, "//" + netloc + path + "?" + query) == Ok(Url(scheme, netloc, path, query, ""))
  {
    hide Tail;
    var url := "//" + netloc + path + "?" + query;
    var rest := netloc + path + "?" + query;
    assert url[..2] == "//" && url[2..] == rest;
    forall k | 0 <= k < |netloc|
      ensures rest[k] !in "/?#"
    {
      assert rest[k] == netloc[k] && netloc[k] in netloc;
    }
    assert rest[|netloc|] == path[0];
    FirstIs(rest, "/?#", |netloc|);
    assert rest[..|netloc|] == netloc && rest[|netloc|..] == path + "?" + query;
    assert '[' !in netloc && ']' !in netloc;
    TailParts(scheme, netloc, path, query);
  }

  lemma TailParts(scheme: string, netloc: string, path: string, query: string)
    requires Free(path, "?#") && Free(query, "#")
    ensures Tail(scheme, netloc, path + "?" + query) == Url(scheme, netloc, path, query, "")
  {
    var rest := path + "?" + query;
    forall k | 0 <= k < |rest|
      ensures rest[k] !in "#"
    {
      assert rest[k] in path || rest[k] == '?' || rest[k] in query;
    }
    FirstIs(rest, "#", |rest|);
    assert rest[..|rest|] == rest;
    forall k | 0 <= k < |path|
      ensures rest[k] !in "?"
    {
      assert rest[k] == path[k] && path[k] in path;
    }
    FirstIs(rest, "?", |path|);
    assert rest[..|path|] == path && rest[|path| + 1..] == query;
  }

  /** A network location on its own, as each member of a list is parsed. */
  lemma HostAlone(entry: string)
    requires Clean(entry) && Free(entry, "/?#[]")
    ensures UrlSplit("//" + entry) == Ok(Url("", entry, "", "", ""))
  {
    var url := "//" + entry;
    assert Clean(url);
    CleanKept(url);
    assert LeftTrimmed(url) == url;
    assert url[2..] == entry && Colon(url) == 0;
    forall k | 0 <= k < |entry|
      ensures entry[k] !in "/?#"
    {
      assert entry[k] in entry;
    }
    FirstIs(entry, "/?#", |entry|);
    assert '[' !in entry && ']' !in entry;
    assert entry[..|entry|] == entry && entry[|entry|..] == "";
    assert Tail("", entry, "") == Url("", entry, "", "", "");
  }

  // ----- inside the network location --------------------------------------------------------------

  /** Everything behind the last `@`. */
  function HostText(netloc: string): string {
    netloc[BehindLast(netloc, '@')..]
  }

  /** Host and port texts; an IPv6 literal is what stands in brackets. */
  function HostPort(netloc: string): (string, string) {
    var text := HostText(netloc);
    var open := First(text, "[");
    if open < |text| then
      var inner := text[open + 1..];
      var end := First(inner, "]");
      var after := if end < |inner| then inner[end + 1..] else "";
      (inner[..end], AfterColon(after))
    else
      (text[..First(text, ":")], AfterColon(text))
  }

  function AfterColon(s: string): string {
    var i := First(s, ":");
    if i < |s| then s[i + 1..] else ""
  }

  /** `hostname`, in lower case except for a zone; empty where the program sees None. */
  function Hostname(netloc: string): string {
    var host := HostPort(netloc).0;
    var zone := First(host, "%");
    Lower(host[..zone]) + host[zone..]
  }

  /** `port`. */
  function Port(netloc: string): Result<Option<nat>> {
    var text := HostPort(netloc).1;
    if text == "" then Ok(None)
    else if !AllDigits(text) || Value(text) > 65535 then Err
    else Ok(Some(Value(text)))
  }

  /** `username` and `password`. */
  function UserInfo(netloc: string): (Option<string>, Option<string>) {
    var i := BehindLast(netloc, '@');
    if i == 0 then (None, None) else
    var info := netloc[..i - 1];
    var colon := First(info, ":");
    (Some(info[..colon]), if colon == |info| then None else Some(info[colon + 1..]))
  }

  /** Credentials free of `:` and `@` in front of a host list free of `@` come back exactly. */
  lemma CredentialsBack(user: string, password: string, hosts: string)
    requires Free(user, ":@") && Free(password, "@") && Free(hosts, "@")
    ensures var netloc := user + ":" + password + "@" + hosts;
            UserInfo(netloc) == (Some(user), Some(password)) && HostText(netloc) == hosts
  {
    var netloc := user + ":" + password + "@" + hosts;
    var n := |user| + 1 + |password| + 1;
    assert netloc[n - 1] == '@';
    forall k | n <= k < |netloc|
      ensures netloc[k] != '@'
    {
      assert netloc[k] == hosts[k - n] && hosts[k - n] in hosts;
    }
    BehindLastIs(netloc, '@', n);
    assert netloc[n..] == hosts;
    var info := user + ":" + password;
    assert netloc[..n - 1] == info;
    forall k | 0 <= k < |user|
      ensures info[k] !in ":"
    {
      assert info[k] == user[k] && user[k] in user;
    }
    FirstIs(info, ":", |user|);
    assert info[..|user|] == user && info[|user| + 1..] == password;
  }

  /** One `host:port` entry reads back as the lower-cased host and the port. */
  lemma EntryBack(host: string, port: nat)
    requires Free(host, ":@[%") && port <= 65535
    ensures Hostname(host + ":" + Numeral(port)) == Lower(host)
    ensures Port(host + ":" + Numeral(port)) == Ok(Some(port))
  {
    var digits := Numeral(port);
    var entry := host + ":" + digits;
    forall k | 0 <= k < |entry|
      ensures entry[k] != '@' && entry[k] !in "["
    {
      if k > |host| {
        assert entry[k] == digits[k - |host| - 1] && IsDigit(digits[k - |host| - 1]);
      } else if k < |host| {
        assert entry[k] in host;
      }
    }
    BehindLastIs(entry, '@', 0);
    assert entry[0..] == entry;
    FirstIs(entry, "[", |entry|);
    forall k | 0 <= k < |host|
      ensures entry[k] !in ":" && host[k] !in "%"
    {
      assert entry[k] == host[k] && host[k] in host;
    }
    FirstIs(entry, ":", |host|);
    assert entry[..|host|] == host && entry[|host| + 1..] == digits;
    FirstIs(host, "%", |host|);
    assert host[..|host|] == host;
    assert Lower(host) + "" == Lower(host);
  }
}
