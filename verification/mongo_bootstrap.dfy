/** Bootstrapping the native single-member database, and moving its advertised address. */
module MongoBootstrap {
  import opened Results
  import opened Bytes
  import opened Url

  // ----- the server -------------------------------------------------------------------------------

  datatype Settings = Settings(replicaSet: string, host: string, port: nat, user: string, password: string)

  /** `extra` stands for every field the scripts carry along without looking at it. */
  datatype Member = Member(id: int, host: string, extra: string)

  datatype Replica = Replica(name: string, version: int, members: seq<Member>, extra: string)

  datatype Server = Server(replica: Option<Replica>, users: map<string, string>, databases: set<string>)

  const SYSTEM: set<string> := {"admin", "config", "local"}

  const FRESH := Server(None, map[], {"local"})

  function MemberHost(c: Settings): string {
    c.host + ":" + Numeral(c.port)
  }

  /** `_replica_config`, as the server stores it. */
  function Expected(c: Settings): Replica {
    Replica(c.replicaSet, 1, [Member(0, MemberHost(c), "")], "")
  }

  /** `_same_replica`. */
  predicate Same(r: Replica, c: Settings) {
    r.name == c.replicaSet && |r.members| == 1 && r.members[0].id == 0 && r.members[0].host == MemberHost(c)
  }

  predicate Authenticates(s: Server, c: Settings) {
    c.user in s.users && s.users[c.user] == c.password
  }

  /** An instance this configuration already knows. */
  predicate Known(s: Server, c: Settings) {
    Authenticates(s, c) && s.replica.Some? && Same(s.replica.value, c)
  }

  predicate Business(s: Server) {
    s.databases - SYSTEM != {}
  }

  /** Business data is any database but the server's own three. */
  lemma BusinessExact(s: Server)
    ensures Business(s) <==> exists d :: d in s.databases && d != "admin" && d != "config" && d != "local"
  {
    if d :| d in s.databases && d != "admin" && d != "config" && d != "local" {
      assert d in s.databases - SYSTEM;
    }
  }

  /** How a run ends; `Stopped` is a crash, a timeout or any error raised between two commands. */
  datatype Outcome = Finished(changed: bool) | Refused | Stopped

  // ----- initialize -------------------------------------------------------------------------------

  /** `initialize`, ended by something before command number `stop`: verify, initiate, wait, list,
      create. */
  function Initialized(s: Server, c: Settings, allow: bool, stop: nat): (Server, Outcome) {
    if stop == 0 then (s, Stopped)
    else if Authenticates(s, c) && s.replica.Some? then
      (s, if Same(s.replica.value, c) then Finished(false) else Refused)
    else if !allow then (s, Refused)
    else if stop == 1 then (s, Stopped)
    else if s.users != map[] || (s.replica.Some? && !Same(s.replica.value, c)) then (s, Refused)
    else
      var s1 := if s.replica.None? then s.(replica := Some(Expected(c))) else s;
      if stop <= 3 then (s1, Stopped)
      else if Business(s1) then (s1, Refused)
      else if stop == 4 then (s1, Stopped)
      else (s1.(users := map[c.user := c.password], databases := s1.databases + {"admin"}), Finished(true))
  }

  const ALL: nat := 5

  /** An uninterrupted run succeeds exactly on an instance it knows, or, where initialization is
      allowed, on one without users, without business data, and not initiated differently. */
  lemma InitializeExact(s: Server, c: Settings, allow: bool)
    ensures var (s', o) := Initialized(s, c, allow, ALL);
            && (o.Finished? <==>
                  (Known(s, c) || (allow && s.users == map[] && !Business(s) && (s.replica.Some? ==> Same(s.replica.value, c)))))
            && (o.Finished? ==> Known(s', c) && (o.changed <==> !Known(s, c)))
            && !o.Stopped?
  {
  }

  /** Whatever happens and wherever it stops: an initiated set is never rewritten, no database is lost,
      and users appear only where there were none, without business data, and when allowed. */
  lemma NeverRewritten(s: Server, c: Settings, allow: bool, stop: nat)
    ensures var s' := Initialized(s, c, allow, stop).0;
            && (s.replica.Some? ==> s'.replica == s.replica)
            && (s'.replica != s.replica ==> allow && s.users == map[] && s'.replica == Some(Expected(c)))
            && (s'.users != s.users ==>
                  allow && s.users == map[] && !Business(s) && s'.users == map[c.user := c.password])
            && s.databases <= s'.databases <= s.databases + {"admin"}
  {
  }

  /** The server after runs that stopped at these points. */
  function Interrupted(s: Server, c: Settings, stops: seq<nat>): Server {
    if stops == [] then s else Initialized(Interrupted(s, c, stops[..|stops| - 1]), c, true, stops[|stops| - 1]).0
  }

  /** However many runs were started and wherever they stopped, running again ends exactly where one
      uninterrupted run would have ended. */
  lemma {:induction false} InitializeResumes(s: Server, c: Settings, stops: seq<nat>)
    ensures var again := Initialized(Interrupted(s, c, stops), c, true, ALL);
            var once := Initialized(s, c, true, ALL);
            again.0 == once.0 && (again.1.Finished? <==> once.1.Finished?)
  {
    hide Initialized;
    if stops != [] {
      var n := |stops| - 1;
      InitializeResumes(s, c, stops[..n]);
      ResumesOnce(Interrupted(s, c, stops[..n]), c, stops[n]);
    }
  }

  lemma ResumesOnce(s: Server, c: Settings, stop: nat)
    ensures var again := Initialized(Initialized(s, c, true, stop).0, c, true, ALL);
            var once := Initialized(s, c, true, ALL);
            again.0 == once.0 && (again.1.Finished? <==> once.1.Finished?)
  {
    var s' := Initialized(s, c, true, stop).0;
    assert s'.databases - SYSTEM == s.databases - SYSTEM;
  }

  /** Once known, always left alone, wherever a run stops. */
  lemma KnownUntouched(s: Server, c: Settings, allow: bool, stop: nat)
    requires Known(s, c)
    ensures Initialized(s, c, allow, stop) == (s, if stop == 0 then Stopped else Finished(false))
  {
  }

  // ----- reconfigure ------------------------------------------------------------------------------

  /** `previous.rsplit(":", 1)[0]`. */
  function HostPart(host: string): string {
    var i := BehindLast(host, ':');
    if i == 0 then host else host[..i - 1]
  }

  /** The host of an address is all of it, or what stands in front of its last colon. */
  lemma HostPartExact(address: string, host: string)
    ensures HostPart(address) == host <==>
              || (address == host && ':' !in address)
              || (host + ":" <= address && ':' !in address[|host| + 1..])
  {
    if address == host && ':' !in address {
      BehindLastIs(address, ':', 0);
    } else if host + ":" <= address && ':' !in address[|host| + 1..] {
      forall k | |host| + 1 <= k < |address|
        ensures address[k] != ':'
      {
        assert address[k] == address[|host| + 1..][k - |host| - 1];
      }
      BehindLastIs(address, ':', |host| + 1);
    }
  }

  /** The address given to the member is the configured host at the configured port. */
  lemma MemberHostExact(c: Settings)
    ensures HostPart(MemberHost(c)) == c.host
    ensures c.host + ":" <= MemberHost(c)
    ensures var port := MemberHost(c)[|c.host| + 1..]; AllDigits(port) && port != "" && Value(port) == c.port
  {
    hide HostPart;
    assert (c.host + ":")[|c.host|] == ':';
    assert MemberHost(c)[|c.host| + 1..] == Numeral(c.port);
    HostPartExact(MemberHost(c), c.host);
  }

  predicate Movable(r: Replica, c: Settings) {
    && r.name == c.replicaSet && |r.members| == 1 && r.members[0].id == 0
    && HostPart(r.members[0].host) in {"127.0.0.1", "localhost"}
  }

  function Moved(r: Replica, c: Settings): Replica
    requires |r.members| == 1
  {
    r.(version := r.version + 1, members := [r.members[0].(host := MemberHost(c))])
  }

  /** `reconfigure_advertised_host`, ended before command number `stop`: read, reconfigure, wait,
      verify. */
  function Reconfigure(s: Server, c: Settings, stop: nat): (Server, Outcome) {
    if stop == 0 then (s, Stopped)
    else if !Authenticates(s, c) || s.replica.None? then (s, Refused)
    else if Same(s.replica.value, c) then (s, Finished(false))
    else if !Movable(s.replica.value, c) then (s, Refused)
    else if stop == 1 then (s, Stopped)
    else (s.(replica := Some(Moved(s.replica.value, c))), if stop <= 3 then Stopped else Finished(true))
  }

  /** An uninterrupted migration succeeds exactly on an authenticated single member that already has
      the address or has a loopback one; it then has the address. */
  lemma ReconfigureExact(s: Server, c: Settings)
    ensures var (s', o) := Reconfigure(s, c, ALL);
            && (o.Finished? <==> Authenticates(s, c) && s.replica.Some? && (Same(s.replica.value, c) || Movable(s.replica.value, c)))
            && (o.Finished? ==> Known(s', c) && (o.changed <==> !Known(s, c)))
            && !o.Stopped?
  {
  }

  /** Nothing but the one member's host changes, from a loopback to the configured one, and the version
      goes up by one; or nothing changes at all. */
  lemma OnlyHostMoves(s: Server, c: Settings, stop: nat)
    ensures var s' := Reconfigure(s, c, stop).0;
            s' == s || (
              && s.replica.Some? && |s.replica.value.members| == 1
              && HostPart(s.replica.value.members[0].host) in {"127.0.0.1", "localhost"}
              && !Same(s.replica.value, c) && Known(s', c)
              && s'.replica.value.version == s.replica.value.version + 1
              && s == s'.(replica := Some(s'.replica.value.(version := s.replica.value.version,
                                                          members := [s'.replica.value.members[0].(host := s.replica.value.members[0].host)]))))
  {
    var s' := Reconfigure(s, c, stop).0;
    if s' != s {
      var r, r' := s.replica.value, s'.replica.value;
      assert [r'.members[0].(host := r.members[0].host)] == r.members;
    }
  }

  /** The server after migrations that stopped at these points. */
  function HalfMoved(s: Server, c: Settings, stops: seq<nat>): Server {
    if stops == [] then s else Reconfigure(HalfMoved(s, c, stops[..|stops| - 1]), c, stops[|stops| - 1]).0
  }

  /** However many migrations were started and wherever they stopped, running it again ends exactly
      where one uninterrupted run would have ended: the version rises once, and one more run reports no
      change. */
  lemma {:induction false} ReconfigureConverges(s: Server, c: Settings, stops: seq<nat>)
    ensures var again := Reconfigure(HalfMoved(s, c, stops), c, ALL);
            var once := Reconfigure(s, c, ALL);
            && again.0 == once.0 && (again.1.Finished? <==> once.1.Finished?)
            && (again.1.Finished? ==> Reconfigure(again.0, c, ALL) == (again.0, Finished(false)))
  {
    hide Reconfigure;
    if stops == [] {
      ConvergesOnce(s, c, 0);
    } else {
      var n := |stops| - 1;
      ReconfigureConverges(s, c, stops[..n]);
      ConvergesOnce(HalfMoved(s, c, stops[..n]), c, stops[n]);
    }
  }

  lemma ConvergesOnce(s: Server, c: Settings, stop: nat)
    ensures var again := Reconfigure(Reconfigure(s, c, stop).0, c, ALL);
            var once := Reconfigure(s, c, ALL);
            again.0 == once.0 && (again.1.Finished? <==> once.1.Finished?)
    ensures Reconfigure(s, c, ALL).1.Finished? ==>
              Reconfigure(Reconfigure(s, c, ALL).0, c, ALL) == (Reconfigure(s, c, ALL).0, Finished(false))
  {
  }

  // ----- the deployment around it -----------------------------------------------------------------

  /** A configuration file: its text and the settings read from it. */
  datatype Config = Config(text: string, settings: Settings)

  /** The data directory's emptiness and the first-start marker, which holds the digest of a
      configuration file; digests are taken to be as distinct as texts. */
  datatype World = World(pending: Option<string>, empty: bool, server: Server)

  const BLANK := World(None, true, FRESH)

  /** One deployment of the database component, ended before step `stop`. */
  datatype Run = Run(config: Config, migrate: bool, stop: nat)

  /** Marking an empty directory before the server first writes to it. */
  function Marked(w: World, r: Run): World {
    if !r.migrate && w.empty && w.pending.None? then w.(pending := Some(r.config.text)) else w
  }

  const SERVED: nat := ALL + 1

  /** Starting the server, checking the marker, running the script, dropping the marker; ended before
      step `stop` of these. */
  function Served(w: World, r: Run, stop: nat): (World, Outcome) {
    var up := w.(empty := false);
    if up.pending.Some? && (up.pending.value != r.config.text || r.migrate) then (up, Refused) else
    var (s', o) := if r.migrate then Reconfigure(up.server, r.config.settings, stop)
                   else Initialized(up.server, r.config.settings, up.pending.Some?, stop);
    if !o.Finished? || stop < SERVED then (up.(server := s'), if o.Refused? then Refused else Stopped)
    else (up.(server := s', pending := None), o)
  }

  /** What the script needs of the world it is run in. */
  predicate Servable(w: World, r: Run) {
    if r.migrate then
      && w.pending.None? && Authenticates(w.server, r.config.settings) && w.server.replica.Some?
      && (Same(w.server.replica.value, r.config.settings) || Movable(w.server.replica.value, r.config.settings))
    else
      && (w.pending.Some? ==> w.pending.value == r.config.text)
      && (|| Known(w.server, r.config.settings)
          || (&& w.pending.Some? && w.server.users == map[] && !Business(w.server)
              && (w.server.replica.Some? ==> Same(w.server.replica.value, r.config.settings))))
  }

  lemma ServedExact(w: World, r: Run, stop: nat)
    requires stop >= SERVED
    ensures var (w', o) := Served(w, r, stop);
            && (o.Finished? <==> Servable(w, r)) && !o.Stopped?
            && (o.Finished? ==> w'.pending.None? && !w'.empty && Known(w'.server, r.config.settings))
  {
    hide Initialized, Reconfigure;
    var c := r.config.settings;
    InitializeExact(w.server, c, w.pending.Some?);
    ReconfigureExact(w.server, c);
    BeyondAll(w.server, c, w.pending.Some?, stop);
  }

  lemma BeyondAll(s: Server, c: Settings, allow: bool, stop: nat)
    requires stop >= ALL
    ensures Initialized(s, c, allow, stop) == Initialized(s, c, allow, ALL)
    ensures Reconfigure(s, c, stop) == Reconfigure(s, c, ALL)
  {
  }

  const DONE: nat := SERVED + 2

  /** The database branch of `deploy`. */
  function Deploy(w: World, r: Run): (World, Outcome) {
    if r.stop == 0 then (w, Stopped)
    else if r.stop == 1 then (Marked(w, r), Stopped)
    else Served(Marked(w, r), r, r.stop - 2)
  }

  /** What happens to the host: deployments, applications that log in and create databases, and an
      operator who exchanges the data directory. */
  datatype Event = Deployed(run: Run) | Created(database: string) | Exchanged(server: Server, empty: bool)

  function After(w: World, e: Event): World {
    match e
    case Deployed(run) => Deploy(w, run).0
    case Created(database) =>
      if w.server.users == map[] then w else w.(server := w.server.(databases := w.server.databases + {database}))
    case Exchanged(server, empty) =>
      if empty then w.(empty := true, server := FRESH) else w.(empty := false, server := server)
  }

  function History(w: World, events: seq<Event>): World {
    if events == [] then w else After(History(w, events[..|events| - 1]), events[|events| - 1])
  }

  /** Some deployment with this configuration found the directory empty. */
  ghost predicate FoundEmpty(events: seq<Event>, text: string) {
    exists i :: 0 <= i < |events| && FoundEmptyAt(events, i, text)
  }

  predicate FoundEmptyAt(events: seq<Event>, i: nat, text: string)
    requires i < |events|
  {
    events[i].Deployed? && events[i].run.config.text == text && !events[i].run.migrate && History(BLANK, events[..i]).empty
  }

  lemma {:induction false} FoundEarlier(events: seq<Event>, text: string)
    requires events != [] && FoundEmpty(events[..|events| - 1], text)
    ensures FoundEmpty(events, text)
  {
    hide History;
    var before := events[..|events| - 1];
    var i :| 0 <= i < |before| && FoundEmptyAt(before, i, text);
    assert before[..i] == events[..i];
    assert FoundEmptyAt(events, i, text);
  }

  /** In every history whatsoever, a marker was written by a deployment with the marker's own
      configuration that found the directory empty. */
  lemma {:induction false} MarkerMeansEmpty(events: seq<Event>)
    ensures var w := History(BLANK, events); w.pending.Some? ==> FoundEmpty(events, w.pending.value)
  {
    hide Deploy;
    if events != [] {
      var n := |events| - 1;
      var w := History(BLANK, events[..n]);
      MarkerMeansEmpty(events[..n]);
      if w.pending.Some? {
        FoundEarlier(events, w.pending.value);
      }
      if events[n].Deployed? {
        MarkerStep(w, events[n].run);
        if w.pending.None? && w.empty && !events[n].run.migrate {
          assert FoundEmptyAt(events, n, events[n].run.config.text);
        }
      }
    }
  }

  lemma MarkerStep(w: World, r: Run)
    ensures var w' := Deploy(w, r).0;
            w'.pending.Some? ==> w'.pending == w.pending || (w.pending.None? && w.empty && !r.migrate && w'.pending.value == r.config.text)
  {
  }

  /** The only way a deployment creates a user or initiates a set: an earlier or this deployment with
      the same configuration found the directory empty, and there are no users; a user moreover only
      where there is no business database. */
  lemma CreatesOnlyIfFoundEmpty(events: seq<Event>, r: Run)
    ensures var w := History(BLANK, events);
            var w' := Deploy(w, r).0;
            && (w'.server.users != w.server.users ==> w.server.users == map[] && !Business(w.server))
            && (w'.server.users != w.server.users || (w.server.replica.None? && w'.server.replica.Some?) ==>
                  w.server.users == map[] && FoundEmpty(events + [Deployed(r)], r.config.text))
  {
    hide History, Initialized, Reconfigure, FoundEmpty;
    var w := History(BLANK, events);
    if !r.migrate && r.stop >= 2 {
      NeverRewritten(w.server, r.config.settings, true, r.stop - 2);
      NeverRewritten(w.server, r.config.settings, false, r.stop - 2);
      var all := events + [Deployed(r)];
      assert all[..|events|] == events;
      MarkerMeansEmpty(events);
      if w.pending.Some? {
        FoundEarlier(all, w.pending.value);
      } else if w.empty {
        assert FoundEmpty(all, r.config.text) by {
          FoundNow(events, r);
        }
      }
    } else if r.stop >= 2 {
      OnlyHostMoves(w.server, r.config.settings, r.stop - 2);
    }
  }

  lemma FoundNow(events: seq<Event>, r: Run)
    requires History(BLANK, events).empty && !r.migrate
    ensures FoundEmpty(events + [Deployed(r)], r.config.text)
  {
    hide History;
    var all := events + [Deployed(r)];
    assert all[..|events|] == events;
    assert FoundEmptyAt(all, |events|, r.config.text);
  }

  // ----- resuming ---------------------------------------------------------------------------------

  /** Deployments with one configuration, stopped anywhere, and applications: nothing else. */
  predicate Undisturbed(events: seq<Event>, c: Config) {
    forall i :: 0 <= i < |events| ==>
      events[i].Created? || (events[i].Deployed? && events[i].run.config == c && !events[i].run.migrate)
  }

  /** The states a bootstrap can be found in. */
  predicate Underway(w: World, c: Config) {
    || w == BLANK
    || (w.pending == Some(c.text) && w.server.users == map[] && w.server.databases == {"local"}
        && (w.server == FRESH || (!w.empty && w.server.replica == Some(Expected(c.settings)))))
    || Settled(w, c)
  }

  predicate Settled(w: World, c: Config) {
    && !w.empty && w.pending in {None, Some(c.text)}
    && w.server.users == map[c.settings.user := c.settings.password] && w.server.replica == Some(Expected(c.settings))
  }

  lemma RunUnderway(w: World, r: Run)
    requires Underway(w, r.config) && !r.migrate
    ensures Underway(Deploy(w, r).0, r.config)
  {
  }

  /** From the start of the server on, in a bootstrap. */
  lemma ServedUnderway(w: World, r: Run, stop: nat)
    requires Underway(w, r.config) && !r.migrate
    ensures Underway(Marked(w, r), r.config) && Underway(Served(Marked(w, r), r, stop).0, r.config)
    ensures Servable(Marked(w, r), r)
  {
    RunUnderway(w, r.(stop := stop + 2));
    RunUnderway(w, r.(stop := 1));
  }

  /** And what it ends with when nothing stops it. */
  lemma ServedSettles(w: World, r: Run, stop: nat)
    requires Underway(w, r.config) && !r.migrate && stop >= SERVED
    ensures var (w', o) := Served(Marked(w, r), r, stop);
            o.Finished? && w'.pending.None? && Settled(w', r.config)
  {
  }

  /** A migration that can be served still can be after it was stopped anywhere. */
  lemma MigrationServable(w: World, r: Run, stop: nat)
    requires Servable(w, r) && r.migrate
    ensures Servable(Served(w, r, stop).0, r)
  {
  }

  lemma {:induction false} AlwaysUnderway(events: seq<Event>, c: Config)
    requires Undisturbed(events, c)
    ensures Underway(History(BLANK, events), c)
  {
    hide Underway, Deploy;
    if events == [] {
      assert Underway(BLANK, c) by {
        BlankUnderway(c);
      }
    } else {
      var n := |events| - 1;
      assert forall i :: 0 <= i < n ==> events[..n][i] == events[i];
      AlwaysUnderway(events[..n], c);
      var w := History(BLANK, events[..n]);
      if events[n].Deployed? {
        RunUnderway(w, events[n].run);
      } else {
        CreatedUnderway(w, c, events[n].database);
      }
    }
  }

  lemma BlankUnderway(c: Config)
    ensures Underway(BLANK, c)
  {
  }

  lemma CreatedUnderway(w: World, c: Config, database: string)
    requires Underway(w, c)
    ensures Underway(After(w, Created(database)), c)
  {
  }

  /** However many deployments were started and wherever they stopped, one uninterrupted deployment
      with the same configuration ends with the expected single-member set, exactly one administrator
      and no marker; after that a further deployment changes nothing. */
  lemma BootstrapResumes(events: seq<Event>, c: Config, migrate: bool, stop: nat)
    requires Undisturbed(events, c)
    ensures var (w, o) := Deploy(History(BLANK, events), Run(c, false, DONE));
            && o.Finished? && w.pending == None && Known(w.server, c.settings)
            && w.server.users == map[c.settings.user := c.settings.password] && w.server.replica == Some(Expected(c.settings))
            && History(BLANK, events).server.databases <= w.server.databases
            && Deploy(w, Run(c, migrate, stop)).0 == w
  {
    hide History;
    AlwaysUnderway(events, c);
    SettledUntouched(Deploy(History(BLANK, events), Run(c, false, DONE)).0, c, migrate, stop);
  }

  /** A finished bootstrap is left alone by every further run of either kind. */
  lemma SettledUntouched(w: World, c: Config, migrate: bool, stop: nat)
    requires w.pending.None? && !w.empty && Known(w.server, c.settings)
    ensures Deploy(w, Run(c, migrate, stop)).0 == w
  {
    hide Initialized;
    if stop >= 2 {
      KnownUntouched(w.server, c.settings, false, stop - 2);
    }
  }

  predicate OthersOnly(events: seq<Event>, text: string) {
    forall i :: 0 <= i < |events| ==> events[i].Deployed? && events[i].run.config.text != text
  }

  /** Once a bootstrap is underway, no number of deployments with other configurations gets to the
      database, finishes, or takes the marker over: the first configuration can still be resumed. */
  lemma {:induction false} OthersNeverReach(w: World, events: seq<Event>, r: Run)
    requires w.pending.Some? && OthersOnly(events, w.pending.value)
    ensures var u := History(w, events);
            && u.server == w.server && u.pending == w.pending
            && (r.config.text != w.pending.value ==> !Deploy(u, r).1.Finished?)
  {
    hide Initialized, Reconfigure;
    if events != [] {
      var n := |events| - 1;
      assert forall i :: 0 <= i < n ==> events[..n][i] == events[i];
      OthersNeverReach(w, events[..n], r);
    }
  }

  // ----- the program text -------------------------------------------------------------------------

  datatype Reply = Done | Already | Denied

  /** `mongod` as the scripts drive it. */
  class Mongod {
    var replica: Option<Replica>
    var users: map<string, string>
    var databases: set<string>

    ghost function View(): Server
      reads this
    {
      Server(replica, users, databases)
    }

    constructor (s: Server)
      ensures View() == s
    {
      replica, users, databases := s.replica, s.users, s.databases;
    }

    /** `replSetInitiate` without credentials. */
    method Initiate(config: Replica) returns (reply: Reply)
      modifies this`replica
      ensures reply.Denied? <==> users != map[]
      ensures reply.Already? <==> users == map[] && old(replica).Some?
      ensures replica == if reply.Done? then Some(config) else old(replica)
    {
      if users != map[] {
        return Denied;
      }
      if replica.Some? {
        return Already;
      }
      replica := Some(config);
      return Done;
    }

    /** `createUser` without credentials: the localhost exception. */
    method CreateUser(user: string, password: string) returns (reply: Reply)
      modifies this`users, this`databases
      ensures reply.Done? <==> old(users) == map[]
      ensures reply.Done? ==> users == map[user := password] && databases == old(databases) + {"admin"}
      ensures !reply.Done? ==> users == old(users) && databases == old(databases)
    {
      if users != map[] {
        return Denied;
      }
      users, databases := map[user := password], databases + {"admin"};
      return Done;
    }

    /** `initialize`. */
    method Initialize(c: Settings, allow: bool, stop: nat) returns (o: Outcome)
      modifies this
      ensures (View(), o) == Initialized(old(View()), c, allow, stop)
    {
      if stop == 0 {
        return Stopped;
      }
      if c.user in users && users[c.user] == c.password && replica.Some? {
        return if Same(replica.value, c) then Finished(false) else Refused;
      }
      if !allow {
        return Refused;
      }
      if stop == 1 {
        return Stopped;
      }
      var reply := Initiate(Expected(c));
      if reply.Denied? {
        return Refused;
      }
      if reply.Already? && !Same(replica.value, c) {
        return Refused;
      }
      if stop <= 3 {
        return Stopped;
      }
      if databases - SYSTEM != {} {
        return Refused;
      }
      if stop == 4 {
        return Stopped;
      }
      reply := CreateUser(c.user, c.password);
      return if reply.Done? then Finished(true) else Refused;
    }

    /** `reconfigure_advertised_host`. */
    method ReconfigureAdvertisedHost(c: Settings, stop: nat) returns (o: Outcome)
      modifies this`replica
      ensures (View(), o) == Reconfigure(old(View()), c, stop)
    {
      if stop == 0 {
        return Stopped;
      }
      if !(c.user in users && users[c.user] == c.password) || replica.None? {
        return Refused;
      }
      var actual := replica.value;
      if actual.name != c.replicaSet || |actual.members| != 1 || actual.members[0].id != 0 {
        return Refused;
      }
      if Same(actual, c) {
        return Finished(false);
      }
      if HostPart(actual.members[0].host) !in {"127.0.0.1", "localhost"} {
        return Refused;
      }
      if stop == 1 {
        return Stopped;
      }
      replica := Some(actual.(version := actual.version + 1, members := [actual.members[0].(host := MemberHost(c))]));
      if stop <= 3 {
        return Stopped;
      }
      return if Same(replica.value, c) then Finished(true) else Refused;
    }
  }

  /** The host the database component is deployed on. */
  class Host {
    const mongod: Mongod
    var pending: Option<string>
    var empty: bool

    ghost function View(): World
      reads this, mongod
    {
      World(pending, empty, mongod.View())
    }

    constructor (mongod: Mongod, pending: Option<string>, empty: bool)
      ensures this.mongod == mongod && this.pending == pending && this.empty == empty
    {
      this.mongod, this.pending, this.empty := mongod, pending, empty;
    }

    /** The database branch of `deploy`. */
    method DeployDatabase(r: Run) returns (o: Outcome)
      modifies this, mongod
      ensures (View(), o) == Deploy(old(View()), r)
    {
      hide Initialized, Reconfigure;
      if r.stop == 0 {
        return Stopped;
      }
      if !r.migrate && empty && pending.None? {
        pending := Some(r.config.text);
      }
      if r.stop == 1 {
        return Stopped;
      }
      o := Serve(r, r.stop - 2);
    }

    /** From the start of the server on. */
    method Serve(r: Run, stop: nat) returns (o: Outcome)
      modifies this, mongod
      ensures (View(), o) == Served(old(View()), r, stop)
    {
      hide Initialized, Reconfigure;
      empty := false;
      var allow := pending.Some?;
      if allow && pending.value != r.config.text {
        return Refused;
      }
      if r.migrate {
        if allow {
          return Refused;
        }
        o := mongod.ReconfigureAdvertisedHost(r.config.settings, stop);
      } else {
        o := mongod.Initialize(r.config.settings, allow, stop);
      }
      if o.Refused? {
        return Refused;
      }
      if !o.Finished? || stop < SERVED {
        return Stopped;
      }
      pending := None;
    }
  }
}
