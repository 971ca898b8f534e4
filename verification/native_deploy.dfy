/** Native deployments over time: the installation marker, the published files, the one migration. */
module NativeDeploy {
  import opened Results
  import opened Bytes
  import opened Url
  import NativeEnv
  import Platform
  import MongoBootstrap

  type Values = map<string, string>

  const MOVABLE: set<string> := {"MONGO_URI", "MONGO_BIND_IP", "MONGO_ADVERTISED_HOST"}
  const PROTECTED: set<string> := {"ENCRYPTION_KEY", "INTERNAL_TOKEN", "BOOTSTRAP_TOKEN", "MONGO_PORT", "API_PORT",
    "API_BIND_IP", "BACKEND_UPSTREAM", "NODE_PORT", "NODE_URL", "NODE_BIND_IP", "NODE_ID", "DATABASE_NAME"}
  const PINNED: set<string> := {"SERVICE_USER", "DATA_ROOT", "MONGO_DATA_ROOT", "LOG_ROOT", "API_LOG_ROOT"}

  /** Every key the deployment looks up is there, and the database port is one. */
  predicate Complete(v: Values) {
    && MOVABLE + PROTECTED + PINNED + {"MONGO_REPLICA_KEY", "MONGO_REPLICA_SET"} <= v.Keys
    && Platform.PortRange(Platform.Int(v["MONGO_PORT"]))
  }

  predicate Given(v: Values, key: string) {
    key in v && v[key] != ""
  }

  function Restrict(v: Values, keys: set<string>): Values
    requires keys <= v.Keys
  {
    map k | k in keys :: v[k]
  }

  // ----- addresses --------------------------------------------------------------------------------

  datatype Parts = Parts(scheme: string, username: Option<string>, password: Option<string>, path: string, query: string,
                         fragment: string, port: Option<nat>)

  /** `mongo_uri_parts`: everything but the host, and the host. */
  function UriParts(uri: string): Result<(Parts, string)> {
    var u := UrlSplit(uri);
    if u.Err? then Err else
    var netloc := u.value.netloc;
    if u.value.scheme !in {"mongodb", "mongodb+srv"} || netloc == "" || ',' in netloc then Err
    else if Port(netloc).Err? || Hostname(netloc) == "" then Err
    else Ok((Parts(u.value.scheme, UserInfo(netloc).0, UserInfo(netloc).1, u.value.path, u.value.query, u.value.fragment,
                   Port(netloc).value), Hostname(netloc)))
  }

  /** The same address, or two addresses that differ in nothing but the host. */
  predicate SameButHost(a: string, b: string) {
    a == b || (UriParts(a).Ok? && UriParts(b).Ok? && UriParts(a).value.0 == UriParts(b).value.0)
  }

  lemma SameButHostTransitive(a: string, b: string, c: string)
    requires SameButHost(a, b) && SameButHost(b, c)
    ensures SameButHost(a, c) && SameButHost(b, a)
  {
    hide UriParts;
  }

  function UriText(scheme: string, user: string, password: string, host: string, port: nat, path: string, query: string): string {
    scheme + "://" + (user + ":" + password + "@" + host + ":" + Numeral(port)) + path + "?" + query
  }

  predicate UriPieces(scheme: string, user: string, password: string, host: string, port: nat, path: string, query: string) {
    && Scheme(scheme) && Lower(scheme) == scheme && port <= 65535 && host != ""
    && Clean(user) && Clean(password) && Clean(host) && Clean(path) && Clean(query)
    && Free(user, ":@/?#[]") && Free(password, "@/?#[]") && Free(host, ":@%/?#[]")
    && path != "" && path[0] == '/' && Free(path, "?#") && Free(query, "#")
  }

  lemma FreeNetloc(user: string, password: string, host: string, port: nat)
    requires Clean(user) && Clean(password) && Clean(host)
    requires Free(user, ":@/?#[]") && Free(password, "@/?#[]") && Free(host, ":@%/?#[]")
    ensures Clean(user + ":" + password + "@" + host + ":" + Numeral(port))
    ensures Free(user + ":" + password + "@" + host + ":" + Numeral(port), "/?#[]")
    ensures Free(user, ":@") && Free(password, "@") && Free(host + ":" + Numeral(port), "@") && Free(host, ":@[%")
  {
    hide Numeral;
    DigitsOnly(port);
  }

  lemma DigitsOnly(port: nat)
    ensures forall c :: c in Numeral(port) ==> IsDigit(c)
  {
    var s := Numeral(port);
    assert forall k :: 0 <= k < |s| ==> IsDigit(s[k]);
  }

  /** An address written out from its pieces is parsed into those pieces. */
  lemma PiecesBack(scheme: string, user: string, password: string, host: string, port: nat, path: string, query: string)
    requires UriPieces(scheme, user, password, host, port, path, query)
    ensures var uri := UriText(scheme, user, password, host, port, path, query);
            UriParts(uri).Ok? ==>
              UriParts(uri).value == (Parts(scheme, Some(user), Some(password), path, query, "", Some(port)), Lower(host))
  {
    hide UrlSplit, UserInfo, Numeral, Hostname, Port, HostText;
    var entry := host + ":" + Numeral(port);
    var netloc := user + ":" + password + "@" + host + ":" + Numeral(port);
    FreeNetloc(user, password, host, port);
    Reassembled(scheme, netloc, path, query);
    assert netloc == user + ":" + password + "@" + entry;
    CredentialsBack(user, password, entry);
    EntryBack(host, port);
    NoCredentials(entry);
    SameHostText(netloc, entry);
  }

  lemma SameHostText(a: string, b: string)
    requires HostText(a) == HostText(b)
    ensures Hostname(a) == Hostname(b) && Port(a) == Port(b)
  {
    hide HostText, First, Value, AfterColon, Lower;
  }

  lemma NoCredentials(b: string)
    requires Free(b, "@")
    ensures HostText(b) == b
  {
    forall k | 0 <= k < |b|
      ensures b[k] != '@'
    {
      assert b[k] in b;
    }
    BehindLastIs(b, '@', 0);
    assert b[0..] == b;
  }

  /** For addresses written in full, a migration replaces the host in the text and nothing else. */
  lemma OnlyHostText(scheme: string, user: string, password: string, host: string, port: nat, path: string, query: string,
                     scheme': string, user': string, password': string, host': string, port': nat, path': string, query': string)
    requires UriPieces(scheme, user, password, host, port, path, query)
    requires UriPieces(scheme', user', password', host', port', path', query')
    requires SameButHost(UriText(scheme, user, password, host, port, path, query),
                         UriText(scheme', user', password', host', port', path', query'))
    requires UriParts(UriText(scheme, user, password, host, port, path, query)).Ok?
    ensures UriText(scheme', user', password', host', port', path', query') ==
              UriText(scheme, user, password, host', port, path, query)
  {
    hide UriParts, UriPieces, UriText;
    PiecesBack(scheme, user, password, host, port, path, query);
    PiecesBack(scheme', user', password', host', port', path', query');
  }

  // ----- the installation -------------------------------------------------------------------------

  /** `.native-managed.json`; digests are taken to be as distinct as what they digest. */
  datatype Marker = Marker(pinned: Values, encryptionKey: string, contract: Values)

  datatype Conf = Conf(port: int, replicaSet: string)

  datatype Component = Database | Backend | Worker | Frontend

  /** The files written by `atomic_write`. */
  datatype File = MarkerFile | PendingFile | ApiFile | WorkerFile | NginxFile | ConfFile | KeyFile | Unit(component: Component)

  /** One installation root: is it empty, its marker, the first-start marker, the published files, the
      non-empty data directories with the databases in them, and the temporary files left behind by
      writes that were cut off. */
  datatype World = World(rootEmpty: bool, marker: Option<Marker>, pending: Option<string>, api: Option<Values>,
                         worker: Option<Values>, conf: Option<Conf>, key: Option<string>,
                         data: map<string, MongoBootstrap.Server>, torn: set<File>)

  /** Nothing installed yet; the data directories may hold anything. */
  function Untouched(data: map<string, MongoBootstrap.Server>): World {
    World(true, None, None, None, None, None, None, data, {})
  }

  function MarkerOf(v: Values): Marker
    requires Complete(v)
  {
    Marker(Restrict(v, PINNED), v["ENCRYPTION_KEY"], Contract(v))
  }

  function Contract(v: Values): Values
    requires Complete(v)
  {
    Restrict(v, MOVABLE + PROTECTED)
  }

  function ConfOf(v: Values): Conf
    requires Complete(v)
  {
    Conf(Platform.Int(v["MONGO_PORT"]).value, v["MONGO_REPLICA_SET"])
  }

  function KeyOf(v: Values): string
    requires Complete(v)
  {
    v["MONGO_REPLICA_KEY"] + "\n"
  }

  /** What `api.env` and `worker.env` say; `NativeEnv.ApiReads` shows the file reads back as this. */
  function ApiEnv(v: Values): Values
    requires Complete(v)
  {
    v["LOG_ROOT" := v["API_LOG_ROOT"]] - NativeEnv.SECRET
  }

  function WorkerEnv(v: Values): Values {
    v - NativeEnv.SECRET
  }

  /** One invocation with the text of its configuration file, ended before step `stop` by a crash or any
      error; `torn` says that a write it stopped at had been begun. */
  datatype Run = Run(text: string, values: Values, component: Option<Component>, migrate: bool, stop: nat, torn: bool)

  datatype Outcome = Finished | Refused | Stopped

  function Components(r: Run): seq<Component> {
    if r.component.Some? then [r.component.value] else [Database, Backend, Worker, Frontend]
  }

  // ----- the database behind an installation ------------------------------------------------------

  function TextAt(v: Values, key: string): string {
    if key in v then v[key] else ""
  }

  /** The database script's view of a run. */
  function DatabaseRun(r: Run): MongoBootstrap.Run
    requires Complete(r.values)
  {
    var v := r.values;
    var c := MongoBootstrap.Settings(v["MONGO_REPLICA_SET"], v["MONGO_ADVERTISED_HOST"], Platform.Int(v["MONGO_PORT"]).value,
                                     TextAt(v, "MONGO_ADMIN_USER"), TextAt(v, "MONGO_ADMIN_PASSWORD"));
    MongoBootstrap.Run(MongoBootstrap.Config(r.text, c), r.migrate, 0)
  }

  /** The data directory the run's settings name, and the first-start marker. */
  function DatabaseWorld(w: World, v: Values): MongoBootstrap.World
    requires Complete(v)
  {
    var root := v["MONGO_DATA_ROOT"];
    MongoBootstrap.World(w.pending, root !in w.data, if root in w.data then w.data[root] else MongoBootstrap.FRESH)
  }

  function WithDatabase(w: World, v: Values, m: MongoBootstrap.World): World
    requires Complete(v)
  {
    w.(pending := m.pending, data := if m.empty then w.data else w.data[v["MONGO_DATA_ROOT"] := m.server])
  }

  // ----- admission --------------------------------------------------------------------------------

  /** `validate_mongo_advertised_host_migration`. */
  predicate MigrationAllowed(w: World, v: Values)
    requires Complete(v)
  {
    && w.api.Some? && PROTECTED <= w.api.value.Keys && "MONGO_URI" in w.api.value
    && (forall k :: k in PROTECTED ==> v[k] == w.api.value[k])
    && UriParts(w.api.value["MONGO_URI"]).Ok? && UriParts(v["MONGO_URI"]).Ok?
    && UriParts(w.api.value["MONGO_URI"]).value.0 == UriParts(v["MONGO_URI"]).value.0
    && UriParts(v["MONGO_URI"]).value.1 == v["MONGO_ADVERTISED_HOST"]
    && w.conf == Some(ConfOf(v)) && UriParts(v["MONGO_URI"]).value.0.port.Some?
    && UriParts(v["MONGO_URI"]).value.0.port.value == Platform.Int(v["MONGO_PORT"]).value
    && w.key == Some(KeyOf(v))
  }

  /** The configuration is complete for its component, and only the database component migrates. */
  predicate WellFormed(r: Run) {
    && Complete(r.values)
    && (Database in Components(r) ==> Given(r.values, "MONGO_ADMIN_USER") && Given(r.values, "MONGO_ADMIN_PASSWORD"))
    && (r.migrate ==> r.component == Some(Database))
  }

  /** `preflight`, as far as it looks at this installation. */
  predicate Admitted(w: World, r: Run) {
    && WellFormed(r)
    && (w.marker.None? ==> w.rootEmpty && (Database in Components(r) ==> r.values["MONGO_DATA_ROOT"] !in w.data))
    && (w.marker.Some? ==>
          && w.marker.value.pinned == Restrict(r.values, PINNED)
          && w.marker.value.encryptionKey == r.values["ENCRYPTION_KEY"]
          && (w.marker.value.contract == Contract(r.values) ||
                (r.migrate && r.component == Some(Database) && MigrationAllowed(w, r.values))))
  }

  // ----- publishing -------------------------------------------------------------------------------

  /** One `atomic_write`: refused where a cut-off write left its temporary file, and leaving one when it
      is cut off itself. */
  function Put(w: World, f: File, next: World, r: Run, stop: nat): (World, Outcome) {
    if stop == 0 then (if r.torn then w.(torn := w.torn + {f}) else w, Stopped)
    else if f in w.torn then (w, Refused)
    else (next, Finished)
  }

  const STEPS: nat := 5 + MongoBootstrap.SERVED

  /** A component of one configuration file and one unit file. */
  function PublishPair(w: World, f: File, next: World, c: Component, r: Run, stop: nat): (World, Outcome) {
    var (w1, o1) := Put(w, f, next, r, stop);
    if !o1.Finished? then (w1, o1) else
    var (w2, o2) := Put(w1, Unit(c), w1, r, stop - 1);
    if !o2.Finished? then (w2, o2) else (w2, if stop < STEPS then Stopped else Finished)
  }

  predicate Marks(w: World, r: Run)
    requires Complete(r.values)
  {
    !r.migrate && r.values["MONGO_DATA_ROOT"] !in w.data && w.pending.None?
  }

  /** The database's configuration, key and unit. */
  function PublishDatabaseFiles(w: World, r: Run, stop: nat): (World, Outcome)
    requires Complete(r.values)
  {
    var (w1, o1) := Put(w, ConfFile, w.(conf := Some(ConfOf(r.values))), r, stop);
    if !o1.Finished? then (w1, o1)
    else if w1.key.Some? && w1.key.value != KeyOf(r.values) then (w1, Refused) else
    var (w2, o2) := Put(w1, KeyFile, w1.(key := Some(KeyOf(r.values))), r, stop - 1);
    if !o2.Finished? then (w2, o2) else Put(w2, Unit(Database), w2, r, stop - 2)
  }

  /** Starting the server and running the script, then refreshing the marker behind a migration. */
  function ServeDatabase(w: World, r: Run, stop: nat): (World, Outcome)
    requires Complete(r.values)
  {
    var (m, o) := MongoBootstrap.Served(DatabaseWorld(w, r.values), DatabaseRun(r), stop);
    var w1 := WithDatabase(w, r.values, m);
    if o.Refused? then (w1, Refused)
    else if o.Stopped? then (w1, Stopped)
    else if r.migrate && w1.marker.Some? then
      Put(w1, MarkerFile, w1.(marker := Some(w1.marker.value.(contract := Contract(r.values)))), r, stop - MongoBootstrap.SERVED)
    else (w1, if stop == MongoBootstrap.SERVED then Stopped else Finished)
  }

  function PublishDatabase(w: World, r: Run, stop: nat): (World, Outcome)
    requires Complete(r.values)
  {
    var (w1, o1) := if Marks(w, r) then Put(w, PendingFile, w.(pending := Some(r.text)), r, stop)
                    else (w, if stop == 0 then Stopped else Finished);
    if !o1.Finished? then (w1, o1) else
    var (w2, o2) := PublishDatabaseFiles(w1, r, stop - 1);
    if !o2.Finished? then (w2, o2)
    else if stop < 4 then (w2, Stopped)
    else ServeDatabase(w2, r, stop - 4)
  }

  function Publish(w: World, r: Run, c: Component, stop: nat): (World, Outcome)
    requires Complete(r.values)
  {
    match c
    case Backend => PublishPair(w, ApiFile, w.(api := Some(ApiEnv(r.values))), c, r, stop)
    case Worker => PublishPair(w, WorkerFile, w.(worker := Some(WorkerEnv(r.values))), c, r, stop)
    case Frontend => PublishPair(w, NginxFile, w, c, r, stop)
    case Database => PublishDatabase(w, r, stop)
  }

  function PublishAll(w: World, r: Run, cs: seq<Component>, stop: nat): (World, Outcome)
    requires Complete(r.values)
    decreases |cs|
  {
    hide Publish;
    if cs == [] then (w, Finished) else
    var (w', o) := Publish(w, r, cs[0], stop);
    if !o.Finished? || stop < STEPS then (w', if o.Refused? then Refused else Stopped)
    else PublishAll(w', r, cs[1..], stop - STEPS)
  }

  /** `prepare_directories`: make the directories, and write the marker if there is none. */
  function PrepareDirectories(w: World, r: Run): (World, Outcome)
    requires Complete(r.values)
  {
    if r.stop == 0 then (w, Stopped) else
    var made := w.(rootEmpty := false);
    if w.marker.None? then Put(made, MarkerFile, made.(marker := Some(MarkerOf(r.values))), r, r.stop - 1)
    else (made, if r.stop == 1 then Stopped else Finished)
  }

  /** `deploy`: check, prepare, publish. */
  function Deploy(w: World, r: Run): (World, Outcome) {
    hide PublishAll;
    if !Admitted(w, r) then (w, Refused) else
    var (marked, o) := PrepareDirectories(w, r);
    if !o.Finished? then (marked, o) else PublishAll(marked, r, Components(r), r.stop - 2)
  }

  function History(w: World, runs: seq<Run>): World {
    if runs == [] then w else Deploy(History(w, runs[..|runs| - 1]), runs[|runs| - 1]).0
  }

  // ----- what every history keeps -----------------------------------------------------------------

  /** A published file says what the marker says about every protected key, and its database address
      is the marker's up to the host. */
  predicate Agrees(env: Values, contract: Values) {
    && PROTECTED <= env.Keys && PROTECTED <= contract.Keys
    && (forall k :: k in PROTECTED ==> env[k] == contract[k])
    && "MONGO_URI" in env && "MONGO_URI" in contract && SameButHost(env["MONGO_URI"], contract["MONGO_URI"])
  }

  predicate Consistent(w: World) {
    && (w.marker.None? ==> w.api.None? && w.worker.None? && w.conf.None? && w.key.None?)
    && (w.marker.Some? && w.api.Some? ==> Agrees(w.api.value, w.marker.value.contract))
    && (w.marker.Some? && w.worker.Some? ==> Agrees(w.worker.value, w.marker.value.contract))
  }

  lemma PublishedAgrees(v: Values)
    requires Complete(v)
    ensures Agrees(ApiEnv(v), Contract(v)) && Agrees(WorkerEnv(v), Contract(v))
  {
    assert PROTECTED !! NativeEnv.SECRET && "LOG_ROOT" !in PROTECTED && "MONGO_URI" !in NativeEnv.SECRET;
  }

  /** What a run may rely on once it is past the checks: the marker has its contract, or it is the
      migration of a database whose published contract was compared. */
  predicate Licensed(w: World, r: Run, cs: seq<Component>)
    requires Complete(r.values)
  {
    && w.marker.Some?
    && (w.marker.value.contract == Contract(r.values) ||
          (r.migrate && cs == [Database] && w.api.Some? && Agrees(w.api.value, Contract(r.values))))
  }

  lemma ApiAgrees(w: World, v: Values)
    requires Complete(v) && MigrationAllowed(w, v)
    ensures w.api.Some? && Agrees(w.api.value, Contract(v))
  {
    hide UriParts;
  }

  lemma AgreesAcross(a: Values, b: Values, c: Values, d: Values)
    requires Agrees(a, b) && Agrees(c, b) && Agrees(a, d)
    ensures Agrees(c, d)
  {
    hide SameButHost;
    assert SameButHost(c["MONGO_URI"], d["MONGO_URI"]) by {
      SameButHostTransitive(c["MONGO_URI"], b["MONGO_URI"], b["MONGO_URI"]) by {
        Reflexive(b["MONGO_URI"]);
      }
      SameButHostTransitive(a["MONGO_URI"], b["MONGO_URI"], b["MONGO_URI"]) by {
        Reflexive(b["MONGO_URI"]);
      }
      SameButHostTransitive(c["MONGO_URI"], b["MONGO_URI"], a["MONGO_URI"]);
      SameButHostTransitive(c["MONGO_URI"], a["MONGO_URI"], d["MONGO_URI"]);
    }
  }

  lemma Reflexive(a: string)
    ensures SameButHost(a, a)
  {
  }

  /** Whatever a component's publication does, it only ever sets these fields, and these values. */
  predicate Sets(w: World, w': World, r: Run, c: Component)
    requires Complete(r.values)
  {
    && w'.rootEmpty == w.rootEmpty && w.torn <= w'.torn
    && (w'.api == w.api || (c.Backend? && w'.api == Some(ApiEnv(r.values))))
    && (w'.worker == w.worker || (c.Worker? && w'.worker == Some(WorkerEnv(r.values))))
    && (w'.key == w.key || (c.Database? && w.key.None? && w'.key == Some(KeyOf(r.values))))
    && (w'.conf == w.conf || (c.Database? && w'.conf == Some(ConfOf(r.values))))
    && (c.Database? || (w'.data == w.data && w'.pending == w.pending))
    && (w'.marker == w.marker ||
          (c.Database? && r.migrate && w.marker.Some? && w'.marker == Some(w.marker.value.(contract := Contract(r.values)))))
  }

  lemma PublishSets(w: World, r: Run, c: Component, stop: nat)
    requires Complete(r.values)
    ensures Sets(w, Publish(w, r, c, stop).0, r, c)
  {
    hide MongoBootstrap.Served, Complete, ConfOf, Contract, ApiEnv, WorkerEnv, Marks, PublishDatabase;
    if c.Database? {
      DatabaseSets(w, r, stop);
    }
  }

  lemma DatabaseSets(w: World, r: Run, stop: nat)
    requires Complete(r.values)
    ensures Sets(w, PublishDatabase(w, r, stop).0, r, Database)
  {
    hide Complete, ConfOf, KeyOf, Contract, Marks, PublishDatabaseFiles, ServeDatabase;
    var marked := if Marks(w, r) then w.(pending := Some(r.text)) else w;
    if stop >= 1 {
      FilesSet(marked, r, stop - 1);
      var (w2, o2) := PublishDatabaseFiles(marked, r, stop - 1);
      if stop >= 4 {
        ServeSets(w2, r, stop - 4);
      }
    }
  }

  lemma FilesSet(w: World, r: Run, stop: nat)
    requires Complete(r.values)
    ensures var w' := PublishDatabaseFiles(w, r, stop).0;
            Sets(w, w', r, Database) && w'.marker == w.marker
  {
    hide Complete, ConfOf, KeyOf, Contract;
  }

  lemma ServeSets(w: World, r: Run, stop: nat)
    requires Complete(r.values)
    ensures var w' := ServeDatabase(w, r, stop).0;
            Sets(w, w', r, Database) && w'.key == w.key
  {
    hide Complete, ConfOf, KeyOf, Contract, MongoBootstrap.Served, DatabaseRun, DatabaseWorld;
  }

  lemma PublishKeeps(w: World, r: Run, cs: seq<Component>, stop: nat)
    requires Complete(r.values) && cs != [] && Consistent(w) && Licensed(w, r, cs)
    ensures var (w', o) := Publish(w, r, cs[0], stop);
            Consistent(w') && (cs[1..] != [] ==> Licensed(w', r, cs[1..]))
  {
    hide Agrees, Contract, ConfOf, KeyOf, ApiEnv, WorkerEnv, Complete, Publish;
    PublishSets(w, r, cs[0], stop);
    PublishedAgrees(r.values);
    if r.migrate && cs[0].Database? && w.marker.value.contract != Contract(r.values) {
      AgreesAcross(w.api.value, w.marker.value.contract, w.api.value, Contract(r.values));
      if w.worker.Some? {
        AgreesAcross(w.api.value, w.marker.value.contract, w.worker.value, Contract(r.values));
      }
    }
  }

  lemma PublishAllOne(w: World, r: Run, cs: seq<Component>, stop: nat)
    requires Complete(r.values) && cs != []
    ensures PublishAll(w, r, cs, stop) ==
              var (w', o) := Publish(w, r, cs[0], stop);
              if !o.Finished? || stop < STEPS then (w', if o.Refused? then Refused else Stopped)
              else PublishAll(w', r, cs[1..], stop - STEPS)
  {
    hide Complete, Publish;
  }

  lemma PublishAllNone(w: World, r: Run, stop: nat)
    requires Complete(r.values)
    ensures PublishAll(w, r, [], stop) == (w, Finished)
  {
  }

  lemma {:induction false} PublishAllKeeps(w: World, r: Run, cs: seq<Component>, stop: nat)
    requires Complete(r.values) && Consistent(w) && (cs != [] ==> Licensed(w, r, cs))
    ensures Consistent(PublishAll(w, r, cs, stop).0)
    decreases |cs|
  {
    hide Consistent, Licensed, Publish, PublishAll, Complete;
    if cs == [] {
      PublishAllNone(w, r, stop);
    } else {
      PublishAllOne(w, r, cs, stop);
      PublishKeeps(w, r, cs, stop);
      var (w', o) := Publish(w, r, cs[0], stop);
      if o.Finished? && stop >= STEPS {
        PublishAllKeeps(w', r, cs[1..], stop - STEPS);
      }
    }
  }

  lemma DeployKeeps(w: World, r: Run)
    requires Consistent(w)
    ensures Consistent(Deploy(w, r).0)
  {
    hide PublishAll, MigrationAllowed, Agrees, Restrict, Complete;
    if Admitted(w, r) && r.stop >= 2 {
      var made := w.(rootEmpty := false, marker := if w.marker.None? then Some(MarkerOf(r.values)) else w.marker);
      if w.marker.Some? && w.marker.value.contract != Contract(r.values) {
        ApiAgrees(w, r.values);
      }
      if w.marker.Some? || MarkerFile !in w.torn {
        PublishAllKeeps(made, r, Components(r), r.stop - 2);
      }
    }
  }

  /** In every history of deployments and migrations, each stopped anywhere, the marker and the two
      published files agree on every contract key but the three about the advertised host, and their
      database addresses differ at most in the host. */
  lemma {:induction false} HistoryConsistent(data: map<string, MongoBootstrap.Server>, runs: seq<Run>)
    ensures Consistent(History(Untouched(data), runs))
  {
    hide Consistent, Deploy;
    if runs == [] {
      assert Consistent(Untouched(data)) by {
        UntouchedConsistent(data);
      }
    } else {
      HistoryConsistent(data, runs[..|runs| - 1]);
      DeployKeeps(History(Untouched(data), runs[..|runs| - 1]), runs[|runs| - 1]);
    }
  }

  lemma UntouchedConsistent(data: map<string, MongoBootstrap.Server>)
    ensures Consistent(Untouched(data))
  {
  }

  lemma FilesAgree(data: map<string, MongoBootstrap.Server>, runs: seq<Run>)
    ensures var w := History(Untouched(data), runs);
            w.api.Some? && w.worker.Some? ==>
              && PROTECTED <= w.api.value.Keys && PROTECTED <= w.worker.value.Keys
              && (forall k :: k in PROTECTED ==> w.api.value[k] == w.worker.value[k])
              && "MONGO_URI" in w.api.value && "MONGO_URI" in w.worker.value
              && SameButHost(w.api.value["MONGO_URI"], w.worker.value["MONGO_URI"])
  {
    hide History, SameButHost;
    HistoryConsistent(data, runs);
    var w := History(Untouched(data), runs);
    if w.api.Some? && w.worker.Some? {
      var c := w.marker.value.contract["MONGO_URI"];
      assert SameButHost(c, c) by {
        Reflexive(c);
      }
      SameButHostTransitive(w.worker.value["MONGO_URI"], c, c);
      SameButHostTransitive(w.api.value["MONGO_URI"], c, w.worker.value["MONGO_URI"]);
    }
  }

  /** A migration is compared with `api.env` alone; in every history that is enough: the settings it
      accepts agree in the same sense with the Worker's file and with the marker, which it never read. */
  lemma MigrationFitsAll(data: map<string, MongoBootstrap.Server>, runs: seq<Run>, v: Values)
    requires Complete(v) && MigrationAllowed(History(Untouched(data), runs), v)
    ensures var w := History(Untouched(data), runs);
            && w.marker.Some? && Agrees(w.marker.value.contract, Contract(v))
            && (w.worker.Some? ==> Agrees(w.worker.value, Contract(v)))
  {
    hide History, Agrees, MigrationAllowed, Complete, Contract;
    HistoryConsistent(data, runs);
    var w := History(Untouched(data), runs);
    ApiAgrees(w, v);
    MarkerAgrees(w.api.value, w.marker.value.contract);
    AgreesAcross(w.api.value, w.marker.value.contract, w.marker.value.contract, Contract(v));
    if w.worker.Some? {
      AgreesAcross(w.api.value, w.marker.value.contract, w.worker.value, Contract(v));
    }
  }

  lemma MarkerAgrees(env: Values, contract: Values)
    requires Agrees(env, contract)
    ensures Agrees(contract, contract)
  {
    Reflexive(contract["MONGO_URI"]);
  }

  // ----- what never changes -----------------------------------------------------------------------

  /** The pinned paths and account, the encryption key and the member key stay what they were first; a
      temporary file left behind stays; a root without a marker stays as it is. */
  predicate Keeps(w: World, w': World) {
    && (w.marker.Some? ==> w'.marker.Some? && w'.marker.value.pinned == w.marker.value.pinned
                           && w'.marker.value.encryptionKey == w.marker.value.encryptionKey)
    && (w.key.Some? ==> w'.key == w.key)
    && (!w.rootEmpty ==> !w'.rootEmpty)
    && (!w.rootEmpty && w.marker.None? ==> w' == w)
    && w.torn <= w'.torn
  }

  lemma {:induction false} PublishAllFixed(w: World, r: Run, cs: seq<Component>, stop: nat)
    requires Complete(r.values) && w.marker.Some?
    ensures Keeps(w, PublishAll(w, r, cs, stop).0)
    decreases |cs|
  {
    hide Publish, PublishAll, Complete;
    if cs == [] {
      PublishAllNone(w, r, stop);
    } else {
      PublishSets(w, r, cs[0], stop);
      PublishAllOne(w, r, cs, stop);
      var (w', o) := Publish(w, r, cs[0], stop);
      if o.Finished? && stop >= STEPS {
        PublishAllFixed(w', r, cs[1..], stop - STEPS);
      }
    }
  }

  lemma DeployFixed(w: World, r: Run)
    ensures Keeps(w, Deploy(w, r).0)
  {
    hide PublishAll, MigrationAllowed, Restrict, Complete;
    if Admitted(w, r) && r.stop >= 2 && (w.marker.Some? || MarkerFile !in w.torn) {
      var made := w.(rootEmpty := false, marker := if w.marker.None? then Some(MarkerOf(r.values)) else w.marker);
      PublishAllFixed(made, r, Components(r), r.stop - 2);
    }
  }

  /** Over any further history. */
  lemma {:induction false} NeverChanges(w: World, runs: seq<Run>)
    ensures Keeps(w, History(w, runs))
  {
    hide Deploy;
    if runs != [] {
      var before := runs[..|runs| - 1];
      NeverChanges(w, before);
      DeployFixed(History(w, before), runs[|runs| - 1]);
    }
  }

  // ----- when a deployment gets through -----------------------------------------------------------

  /** The files a component of this run writes. */
  function Writes(w: World, r: Run, c: Component): set<File>
    requires Complete(r.values)
  {
    match c
    case Backend => {ApiFile, Unit(Backend)}
    case Worker => {WorkerFile, Unit(Worker)}
    case Frontend => {NginxFile, Unit(Frontend)}
    case Database =>
      {ConfFile, KeyFile, Unit(Database)} + (if Marks(w, r) then {PendingFile} else {}) + if r.migrate then {MarkerFile} else {}
  }

  /** What the component finds is fit for it: no cut-off write in its way and, for the database, the
      published member key, and a first-start marker and an instance the script accepts. */
  predicate Fit(w: World, r: Run, c: Component)
    requires Complete(r.values)
  {
    && Writes(w, r, c) !! w.torn
    && (c.Database? ==>
          && (w.key.None? || w.key.value == KeyOf(r.values))
          && MongoBootstrap.Servable(MongoBootstrap.Marked(DatabaseWorld(w, r.values), DatabaseRun(r)), DatabaseRun(r)))
  }

  /** The steps of a run that nothing interrupts. */
  function Enough(r: Run): nat {
    2 + STEPS * |Components(r)|
  }

  lemma {:induction false} PublishAllLong(w: World, r: Run, cs: seq<Component>, stop: nat)
    requires Complete(r.values) && PublishAll(w, r, cs, stop).1.Finished?
    ensures stop >= STEPS * |cs|
    decreases |cs|
  {
    hide Complete, Publish, PublishAll;
    if cs != [] {
      PublishAllOne(w, r, cs, stop);
      PublishAllLong(Publish(w, r, cs[0], stop).0, r, cs[1..], stop - STEPS);
    }
  }

  lemma FinishedLong(w: World, r: Run)
    requires Deploy(w, r).1.Finished?
    ensures r.stop >= Enough(r)
  {
    hide Complete, Admitted, PublishAll, Contract, Restrict;
    assert Complete(r.values) by {
      AdmittedComplete(w, r);
    }
    PublishAllLong(Prepared(w, r), r, Components(r), r.stop - 2);
  }

  lemma AdmittedComplete(w: World, r: Run)
    requires Admitted(w, r)
    ensures Complete(r.values)
  {
  }

  lemma PairExact(w: World, f: File, next: World, c: Component, r: Run, stop: nat)
    requires stop >= STEPS && next.torn == w.torn
    ensures var (w', o) := PublishPair(w, f, next, c, r, stop);
            && (o.Finished? <==> {f, Unit(c)} !! w.torn) && !o.Stopped? && (o.Finished? ==> w' == next)
  {
  }

  lemma FilesExact(w: World, r: Run, stop: nat)
    requires Complete(r.values) && stop >= 3
    ensures var (w', o) := PublishDatabaseFiles(w, r, stop);
            && (o.Finished? <==> {ConfFile, KeyFile, Unit(Database)} !! w.torn && (w.key.None? || w.key.value == KeyOf(r.values)))
            && !o.Stopped?
            && (o.Finished? ==> w' == w.(conf := Some(ConfOf(r.values)), key := Some(KeyOf(r.values))))
  {
    hide Complete, ConfOf, KeyOf;
  }

  lemma ServeExact(w: World, r: Run, stop: nat)
    requires Complete(r.values) && w.marker.Some? && stop >= MongoBootstrap.SERVED + 1
    ensures var (w', o) := ServeDatabase(w, r, stop);
            && (o.Finished? <==> MongoBootstrap.Servable(DatabaseWorld(w, r.values), DatabaseRun(r))
                                 && (r.migrate ==> MarkerFile !in w.torn))
            && !o.Stopped? && w'.marker.Some? && w'.torn == w.torn
  {
    hide Complete, MongoBootstrap.Servable, MongoBootstrap.Served, DatabaseWorld, Contract;
    var d := DatabaseRun(r);
    MongoBootstrap.ServedExact(DatabaseWorld(w, r.values), d, stop);
    assert d.migrate == r.migrate;
    var (m, o) := MongoBootstrap.Served(DatabaseWorld(w, r.values), d, stop);
    var w1 := WithDatabase(w, r.values, m);
    assert w1.marker == w.marker && w1.torn == w.torn;
    if o.Finished? {
      assert ServeDatabase(w, r, stop).1.Finished? <==> (r.migrate ==> MarkerFile !in w.torn);
    } else {
      assert !ServeDatabase(w, r, stop).1.Finished?;
    }
  }

  lemma DatabaseExact(w: World, r: Run, stop: nat)
    requires Complete(r.values) && w.marker.Some? && stop >= STEPS
    ensures var (w', o) := PublishDatabase(w, r, stop);
            && (o.Finished? <==> Fit(w, r, Database)) && !o.Stopped?
            && w'.torn == w.torn && w'.marker.Some?
  {
    hide Complete, ConfOf, KeyOf, Contract, MongoBootstrap.Servable, PublishDatabaseFiles, ServeDatabase;
    var marked := if Marks(w, r) then w.(pending := Some(r.text)) else w;
    var next := marked.(conf := Some(ConfOf(r.values)), key := Some(KeyOf(r.values)));
    FilesExact(marked, r, stop - 1);
    FilesTorn(marked, r, stop - 1);
    ServeExact(next, r, stop - 4);
    assert DatabaseWorld(next, r.values) == MongoBootstrap.Marked(DatabaseWorld(w, r.values), DatabaseRun(r));
  }

  lemma FilesTorn(w: World, r: Run, stop: nat)
    requires Complete(r.values) && stop >= 3
    ensures PublishDatabaseFiles(w, r, stop).0.torn == w.torn && PublishDatabaseFiles(w, r, stop).0.marker == w.marker
  {
    hide Complete, ConfOf, KeyOf;
  }

  lemma PublishExact(w: World, r: Run, c: Component, stop: nat)
    requires Complete(r.values) && w.marker.Some? && stop >= STEPS
    ensures var (w', o) := Publish(w, r, c, stop);
            && (o.Finished? <==> Fit(w, r, c)) && !o.Stopped? && w'.torn == w.torn && w'.marker.Some?
  {
    hide Complete, PublishDatabase, PublishPair, ApiEnv, WorkerEnv, KeyOf, MongoBootstrap.Servable;
    match c
    case Database => DatabaseExact(w, r, stop);
    case Backend =>
      PairExact(w, ApiFile, w.(api := Some(ApiEnv(r.values))), c, r, stop);
      PairTorn(w, ApiFile, w.(api := Some(ApiEnv(r.values))), c, r, stop);
    case Worker =>
      PairExact(w, WorkerFile, w.(worker := Some(WorkerEnv(r.values))), c, r, stop);
      PairTorn(w, WorkerFile, w.(worker := Some(WorkerEnv(r.values))), c, r, stop);
    case Frontend =>
      PairExact(w, NginxFile, w, c, r, stop);
      PairTorn(w, NginxFile, w, c, r, stop);
  }

  lemma PairTorn(w: World, f: File, next: World, c: Component, r: Run, stop: nat)
    requires stop >= STEPS && next.torn == w.torn && next.marker == w.marker
    ensures PublishPair(w, f, next, c, r, stop).0.torn == w.torn && PublishPair(w, f, next, c, r, stop).0.marker == w.marker
  {
  }

  lemma OthersFit(w: World, w': World, r: Run, c: Component)
    requires Complete(r.values) && !c.Database? && w'.torn == w.torn
    ensures Fit(w', r, c) <==> Fit(w, r, c)
  {
  }

  lemma {:induction false} PublishAllExact(w: World, r: Run, cs: seq<Component>, stop: nat)
    requires Complete(r.values) && w.marker.Some? && stop >= STEPS * |cs|
    requires forall k :: 1 <= k < |cs| ==> !cs[k].Database?
    ensures PublishAll(w, r, cs, stop).1.Finished? <==> forall k :: 0 <= k < |cs| ==> Fit(w, r, cs[k])
    ensures !PublishAll(w, r, cs, stop).1.Stopped?
    decreases |cs|
  {
    hide Complete, Publish, Fit, PublishAll;
    if cs == [] {
      PublishAllNone(w, r, stop);
    } else {
      PublishExact(w, r, cs[0], stop);
      PublishAllOne(w, r, cs, stop);
      var (w', o) := Publish(w, r, cs[0], stop);
      if o.Finished? {
        PublishAllExact(w', r, cs[1..], stop - STEPS);
        forall k | 1 <= k < |cs|
          ensures Fit(w', r, cs[1..][k - 1]) <==> Fit(w, r, cs[k])
        {
          OthersFit(w, w', r, cs[k]);
        }
        assert forall k :: 0 <= k < |cs| - 1 ==> cs[1..][k] == cs[k + 1];
      }
    }
  }

  /** The world as the components find it. */
  function Prepared(w: World, r: Run): World
    requires Complete(r.values)
  {
    w.(rootEmpty := false, marker := if w.marker.None? then Some(MarkerOf(r.values)) else w.marker)
  }

  /** An undisturbed deployment finishes exactly when it is admitted, no cut-off write is in the way of
      the marker it has to write, and every component finds what is fit for it. */
  lemma DeployExact(w: World, r: Run)
    requires r.stop >= Enough(r)
    ensures Deploy(w, r).1.Finished? <==>
              && Admitted(w, r) && (w.marker.None? ==> MarkerFile !in w.torn)
              && forall c :: c in Components(r) ==> Fit(Prepared(w, r), r, c)
    ensures !Deploy(w, r).1.Stopped?
  {
    hide PublishAll, MigrationAllowed, Restrict, Contract, Complete, Fit;
    if Admitted(w, r) {
      var cs := Components(r);
      PublishAllExact(Prepared(w, r), r, cs, r.stop - 2);
      assert forall k :: 0 <= k < |cs| ==> cs[k] in cs;
    }
  }

  // ----- being stuck ------------------------------------------------------------------------------

  /** A first deployment that stops between making the directories and writing the marker leaves a root
      that every later deployment, whatever its settings, refuses. */
  lemma HalfPreparedIsStuck(data: map<string, MongoBootstrap.Server>, r: Run, more: seq<Run>)
    requires r.stop == 1 && Admitted(Untouched(data), r)
    ensures var w := Deploy(Untouched(data), r).0;
            && !w.rootEmpty && w.marker.None? && History(w, more) == w
            && forall again: Run :: Deploy(w, again) == (w, Refused)
  {
    hide Restrict, Contract, MigrationAllowed, Complete;
    NeverChanges(Deploy(Untouched(data), r).0, more);
  }

  /** The files every run of a component writes. */
  function Always(c: Component): set<File> {
    match c
    case Backend => {ApiFile, Unit(Backend)}
    case Worker => {WorkerFile, Unit(Worker)}
    case Frontend => {NginxFile, Unit(Frontend)}
    case Database => {ConfFile, KeyFile, Unit(Database)}
  }

  /** A write cut off by a crash blocks its component for good: whatever is deployed meanwhile, no
      deployment that includes the component finishes again. */
  lemma TornWriteIsStuck(w: World, more: seq<Run>, r: Run, c: Component, f: File)
    requires f in w.torn && f in Always(c) && c in Components(r)
    ensures f in History(w, more).torn && !Deploy(History(w, more), r).1.Finished?
  {
    hide Admitted, Fit, Deploy, Complete, Components, Always, History;
    NeverChanges(w, more);
    var u := History(w, more);
    if Deploy(u, r).1.Finished? {
      FinishedLong(u, r);
      DeployExact(u, r);
      assert Complete(r.values) by {
        AdmittedComplete(u, r);
      }
      NotFit(Prepared(u, r), r, c, f);
    }
  }

  lemma NotFit(w: World, r: Run, c: Component, f: File)
    requires Complete(r.values) && f in Always(c) && f in w.torn
    ensures !Fit(w, r, c)
  {
    assert f in Writes(w, r, c);
  }

  /** And such a file can be left behind. */
  lemma WritesCanTear(w: World, r: Run)
    requires Admitted(w, r) && w.marker.Some? && r.component == Some(Backend) && r.stop == 2 && r.torn
    ensures ApiFile in Deploy(w, r).0.torn
  {
    hide MigrationAllowed, Restrict, Complete;
    PublishAllOne(Prepared(w, r), r, [Backend], 0);
  }

  // ----- the program text -------------------------------------------------------------------------

  class Installation {
    var rootEmpty: bool
    var marker: Option<Marker>
    var pending: Option<string>
    var api: Option<Values>
    var worker: Option<Values>
    var conf: Option<Conf>
    var key: Option<string>
    var data: map<string, MongoBootstrap.Server>
    var torn: set<File>

    function View(): World
      reads this
    {
      World(rootEmpty, marker, pending, api, worker, conf, key, data, torn)
    }

    constructor (data: map<string, MongoBootstrap.Server>)
      ensures View() == Untouched(data)
    {
      rootEmpty, marker, pending, api, worker, conf, key, torn := true, None, None, None, None, None, None, {};
      this.data := data;
    }

    /** Opening the temporary file of an `atomic_write`; the caller then replaces the file itself. */
    method Open(f: File, r: Run, stop: nat) returns (o: Outcome)
      modifies this`torn
      ensures forall next: World :: next.torn == old(torn) ==>
                Put(old(View()), f, next, r, stop) == if o.Finished? then (next, o) else (View(), o)
      ensures o.Finished? ==> torn == old(torn)
    {
      if stop == 0 {
        if r.torn {
          torn := torn + {f};
        }
        return Stopped;
      }
      return if f in torn then Refused else Finished;
    }

    method PublishFiles(r: Run, c: Component, stop: nat) returns (o: Outcome)
      requires Complete(r.values) && !c.Database?
      modifies this`api, this`worker, this`torn
      ensures (View(), o) == Publish(old(View()), r, c, stop)
    {
      hide Complete, ApiEnv, WorkerEnv;
      o := Open(if c == Backend then ApiFile else if c == Worker then WorkerFile else NginxFile, r, stop);
      if o != Finished {
        return;
      }
      if c == Backend {
        api := Some(ApiEnv(r.values));
      } else if c == Worker {
        worker := Some(WorkerEnv(r.values));
      }
      o := Open(Unit(c), r, stop - 1);
      if o == Finished && stop < STEPS {
        o := Stopped;
      }
    }

    method PublishMongo(r: Run, stop: nat) returns (o: Outcome)
      requires Complete(r.values)
      modifies this`conf, this`key, this`torn
      ensures (View(), o) == PublishDatabaseFiles(old(View()), r, stop)
    {
      hide Complete, ConfOf, KeyOf;
      o := Open(ConfFile, r, stop);
      if o != Finished {
        return;
      }
      conf := Some(ConfOf(r.values));
      if key.Some? && key.value != KeyOf(r.values) {
        return Refused;
      }
      o := Open(KeyFile, r, stop - 1);
      if o != Finished {
        return;
      }
      key := Some(KeyOf(r.values));
      o := Open(Unit(Database), r, stop - 2);
    }

    /** Starting the server and running the script against it. */
    method Serve(r: Run, stop: nat) returns (o: Outcome)
      requires Complete(r.values)
      modifies this`pending, this`data, this`marker, this`torn
      ensures (View(), o) == ServeDatabase(old(View()), r, stop)
    {
      hide Complete, Contract, DatabaseRun, DatabaseWorld, MongoBootstrap.Served, WellFormed, MigrationAllowed, Admitted,
           Restrict, Publish, PublishDatabase, Given, Consistent;
      var found := DatabaseWorld(View(), r.values);
      var mongod := new MongoBootstrap.Mongod(found.server);
      var host := new MongoBootstrap.Host(mongod, found.pending, found.empty);
      var served := host.Serve(DatabaseRun(r), stop);
      pending := host.pending;
      RootGiven(r.values);
      if !host.empty {
        data := data[r.values["MONGO_DATA_ROOT"] := MongoBootstrap.Server(mongod.replica, mongod.users, mongod.databases)];
      }
      if served.Refused? {
        return Refused;
      }
      if served.Stopped? {
        return Stopped;
      }
      if r.migrate && marker.Some? {
        FinishedServed(found, DatabaseRun(r), stop);
        o := Open(MarkerFile, r, stop - MongoBootstrap.SERVED);
        if o == Finished {
          marker := Some(marker.value.(contract := Contract(r.values)));
        }
        return;
      }
      return if stop == MongoBootstrap.SERVED then Stopped else Finished;
    }

    /** The database branch of the loop. */
    method PublishDatabaseComponent(r: Run, stop: nat) returns (o: Outcome)
      requires Complete(r.values)
      modifies this
      ensures (View(), o) == PublishDatabase(old(View()), r, stop)
    {
      hide Complete, Marks, PublishDatabaseFiles, ServeDatabase;
      if Marks(View(), r) {
        o := Open(PendingFile, r, stop);
        if o != Finished {
          return;
        }
        pending := Some(r.text);
      } else if stop == 0 {
        return Stopped;
      }
      o := PublishMongo(r, stop - 1);
      if o != Finished {
        return;
      }
      if stop < 4 {
        return Stopped;
      }
      o := Serve(r, stop - 4);
    }

    /** `deploy`. */
    method DeployComponents(r: Run) returns (o: Outcome)
      modifies this
      ensures (View(), o) == Deploy(old(View()), r)
    {
      hide Admitted, PublishAll, PrepareDirectories, Components, Complete, Deploy, WellFormed, MigrationAllowed, MarkerOf,
           Contract, Restrict, Publish, Put, PublishDatabase, Given, Consistent;
      var admitted := Admitted(View(), r);
      if !admitted {
        DeployRefused(View(), r);
        return Refused;
      }
      AdmittedComplete(View(), r);
      DeployAdmitted(View(), r);
      o := Prepare(r);
      if o == Finished {
        o := PublishSelected(r, r.stop - 2);
      }
    }

    method Prepare(r: Run) returns (o: Outcome)
      requires Complete(r.values)
      modifies this`rootEmpty, this`marker, this`torn
      ensures (View(), o) == PrepareDirectories(old(View()), r)
      ensures o.Finished? ==> r.stop >= 2
    {
      hide MarkerOf, Complete;
      if r.stop == 0 {
        return Stopped;
      }
      rootEmpty := false;
      if marker.None? {
        o := Open(MarkerFile, r, r.stop - 1);
        if o != Finished {
          return;
        }
        marker := Some(MarkerOf(r.values));
      } else if r.stop == 1 {
        return Stopped;
      }
      return Finished;
    }

    /** The loop over the components. */
    method PublishSelected(r: Run, stop: nat) returns (o: Outcome)
      requires Complete(r.values)
      modifies this
      ensures (View(), o) == PublishAll(old(View()), r, Components(r), stop)
    {
      hide Publish, PublishAll, PublishDatabase, Components, Complete;
      var selected := Components(r);
      var left: nat := stop;
      ghost var made := View();
      while selected != []
        invariant PublishAll(View(), r, selected, left) == PublishAll(made, r, Components(r), stop)
        decreases |selected|
      {
        ghost var before := View();
        PublishAllOne(before, r, selected, left);
        var outcome;
        if selected[0] == Database {
          outcome := PublishDatabaseComponent(r, left);
          IsPublish(before, r, left);
        } else {
          outcome := PublishFiles(r, selected[0], left);
        }
        if outcome != Finished || left < STEPS {
          return if outcome == Refused then Refused else Stopped;
        }
        selected, left := selected[1..], left - STEPS;
      }
      PublishAllNone(View(), r, left);
      return Finished;
    }
  }

  lemma DeployRefused(w: World, r: Run)
    requires !Admitted(w, r)
    ensures Deploy(w, r) == (w, Refused)
  {
    hide Admitted;
  }

  lemma DeployAdmitted(w: World, r: Run)
    requires Admitted(w, r) && Complete(r.values)
    ensures PrepareDirectories(w, r).1.Finished? ==> r.stop >= 2
    ensures Deploy(w, r) ==
              var (marked, o) := PrepareDirectories(w, r);
              if !o.Finished? then (marked, o) else PublishAll(marked, r, Components(r), r.stop - 2)
  {
    hide Admitted, Complete, PublishAll, Components;
  }

  lemma RootGiven(v: Values)
    requires Complete(v)
    ensures "MONGO_DATA_ROOT" in v
  {
    assert "MONGO_DATA_ROOT" in PINNED;
  }

  lemma IsPublish(w: World, r: Run, stop: nat)
    requires Complete(r.values)
    ensures Publish(w, r, Database, stop) == PublishDatabase(w, r, stop)
  {
  }

  lemma FinishedServed(w: MongoBootstrap.World, r: MongoBootstrap.Run, stop: nat)
    ensures MongoBootstrap.Served(w, r, stop).1.Finished? ==> stop >= MongoBootstrap.SERVED
  {
  }
}
