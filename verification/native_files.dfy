/** What the published files of an installation hold, and which changes a deployment refuses. */
module NativeFiles {
  import opened Results
  import opened NativeDeploy
  import NativeEnv
  import Dotenv
  import MongoBootstrap
  import Platform
  import Bytes

  lemma EnvsTell(v: Values)
    requires Complete(v)
    ensures "API_LOG_ROOT" in v && "LOG_ROOT" in v
    ensures NativeEnv.Tells(ApiEnv(v), v, v["API_LOG_ROOT"]) && NativeEnv.Tells(WorkerEnv(v), v, v["LOG_ROOT"])
  {
    assert "API_LOG_ROOT" in PINNED && "LOG_ROOT" in PINNED;
  }

  /** Every key the deployment looks up is one the configuration reader takes. */
  lemma KeysAccepted(key: string)
    requires key in MOVABLE + PROTECTED + PINNED + {"MONGO_REPLICA_KEY", "MONGO_REPLICA_SET", "MONGO_ADMIN_USER", "MONGO_ADMIN_PASSWORD"}
    ensures NativeEnv.ConfigKey(key)
  {
    hide NativeEnv.ConfigKey;
    if key in {"ENCRYPTION_KEY", "INTERNAL_TOKEN", "BOOTSTRAP_TOKEN", "MONGO_PORT", "API_PORT", "API_BIND_IP"} {
      SharedKeys(key);
    } else if key in PROTECTED {
      NodeKeys(key);
    } else if key in MOVABLE + PINNED {
      PathKeys(key);
    } else {
      DatabaseKeys(key);
    }
  }

  lemma SharedKeys(key: string)
    requires key in {"ENCRYPTION_KEY", "INTERNAL_TOKEN", "BOOTSTRAP_TOKEN", "MONGO_PORT", "API_PORT", "API_BIND_IP"}
    ensures NativeEnv.ConfigKey(key)
  {
  }

  lemma NodeKeys(key: string)
    requires key in {"BACKEND_UPSTREAM", "NODE_PORT", "NODE_URL", "NODE_BIND_IP", "NODE_ID", "DATABASE_NAME"}
    ensures NativeEnv.ConfigKey(key)
  {
  }

  lemma PathKeys(key: string)
    requires key in MOVABLE + PINNED
    ensures NativeEnv.ConfigKey(key)
  {
  }

  lemma DatabaseKeys(key: string)
    requires key in {"MONGO_REPLICA_KEY", "MONGO_REPLICA_SET", "MONGO_ADMIN_USER", "MONGO_ADMIN_PASSWORD"}
    ensures NativeEnv.ConfigKey(key)
  {
  }

  /** And a key it does not take is one with another character than a capital, a digit or an underscore, or
      one that does not begin with a capital. */
  lemma KeysRefused(front: string, c: char, behind: string)
    ensures NativeEnv.ConfigKey(front + [c] + behind) ==>
              'A' <= c <= 'Z' || (front != "" && ('0' <= c <= '9' || c == '_'))
  {
    var key := front + [c] + behind;
    assert key[|front|] == c;
  }

  /** The files as `render` prints them from the configuration's text read back as the mappings the model
      publishes. */
  lemma FilesAsPrinted(text: string, v: Values)
    requires NativeEnv.Config(Dotenv.FileLines(text)).Ok? && Complete(v)
    requires NativeEnv.AsMap(NativeEnv.Config(Dotenv.FileLines(text)).value) == v
    ensures var items := NativeEnv.Config(Dotenv.FileLines(text)).value;
            && NativeEnv.ApiItems(items).Ok? && NativeEnv.WorkerItems(items).Ok?
            && NativeEnv.Published(Dotenv.FileLines(NativeEnv.Environment(NativeEnv.ApiItems(items).value))) == Ok(ApiEnv(v))
            && NativeEnv.Published(Dotenv.FileLines(NativeEnv.Environment(NativeEnv.WorkerItems(items).value))) == Ok(WorkerEnv(v))
  {
    hide NativeEnv.Config, NativeEnv.AsMap, NativeEnv.Published, NativeEnv.Environment, NativeEnv.Tells, Complete, ApiEnv, WorkerEnv;
    EnvsTell(v);
    var items := NativeEnv.Config(Dotenv.FileLines(text)).value;
    NativeEnv.ApiReads(text);
    NativeEnv.WorkerReads(text);
    var api := NativeEnv.Published(Dotenv.FileLines(NativeEnv.Environment(NativeEnv.ApiItems(items).value))).value;
    var worker := NativeEnv.Published(Dotenv.FileLines(NativeEnv.Environment(NativeEnv.WorkerItems(items).value))).value;
    NativeEnv.TellsOne(api, ApiEnv(v), v, v["API_LOG_ROOT"]);
    NativeEnv.TellsOne(worker, WorkerEnv(v), v, v["LOG_ROOT"]);
  }

  // ----- no secrets, ever -------------------------------------------------------------------------

  predicate NoSecrets(w: World) {
    && (w.api.Some? ==> "MONGO_ADMIN_PASSWORD" !in w.api.value && "MONGO_REPLICA_KEY" !in w.api.value)
    && (w.worker.Some? ==> "MONGO_ADMIN_PASSWORD" !in w.worker.value && "MONGO_REPLICA_KEY" !in w.worker.value)
  }

  lemma {:induction false} PublishAllSecret(w: World, r: Run, cs: seq<Component>, stop: nat)
    requires Complete(r.values) && NoSecrets(w)
    ensures NoSecrets(PublishAll(w, r, cs, stop).0)
    decreases |cs|
  {
    hide Complete, Publish, PublishAll, ApiEnv, WorkerEnv;
    if cs == [] {
      PublishAllNone(w, r, stop);
    } else {
      PublishAllOne(w, r, cs, stop);
      PublishSets(w, r, cs[0], stop);
      EnvsTell(r.values);
      var (w', o) := Publish(w, r, cs[0], stop);
      if o.Finished? && stop >= STEPS {
        PublishAllSecret(w', r, cs[1..], stop - STEPS);
      }
    }
  }

  /** Preparing the directories leaves the published files alone. */
  lemma PreparedFiles(w: World, r: Run)
    requires Complete(r.values)
    ensures NoSecrets(w) ==> NoSecrets(PrepareDirectories(w, r).0)
  {
    hide Complete, MarkerOf;
  }

  lemma DeploySecret(w: World, r: Run)
    requires NoSecrets(w)
    ensures NoSecrets(Deploy(w, r).0)
  {
    hide Complete, PublishAll, Admitted, Deploy, Components, MarkerOf, PrepareDirectories, NoSecrets;
    if Admitted(w, r) {
      AdmittedComplete(w, r);
      DeployAdmitted(w, r);
      PreparedFiles(w, r);
      var (marked, o) := PrepareDirectories(w, r);
      if o.Finished? {
        PublishAllSecret(marked, r, Components(r), r.stop - 2);
      }
    } else {
      DeployRefused(w, r);
    }
  }

  /** In every history, wherever its runs stop, neither published file holds the administrator's password or
      the replica key. */
  lemma {:induction false} NeverSecrets(data: map<string, MongoBootstrap.Server>, runs: seq<Run>)
    ensures NoSecrets(History(Untouched(data), runs))
  {
    hide Deploy;
    if runs != [] {
      NeverSecrets(data, runs[..|runs| - 1]);
      DeploySecret(History(Untouched(data), runs[..|runs| - 1]), runs[|runs| - 1]);
    }
  }

  // ----- what a finished deployment has published -------------------------------------------------

  predicate Told(w: World, v: Values, cs: seq<Component>)
    requires Complete(v)
  {
    EnvsTell(v);
    && (Backend in cs ==> w.api.Some? && NativeEnv.Tells(w.api.value, v, v["API_LOG_ROOT"]))
    && (Worker in cs ==> w.worker.Some? && NativeEnv.Tells(w.worker.value, v, v["LOG_ROOT"]))
  }

  lemma NoneTold(w: World, v: Values)
    requires Complete(v)
    ensures Told(w, v, [])
  {
  }

  lemma PublishTells(w: World, r: Run, done: seq<Component>, c: Component, stop: nat)
    requires Complete(r.values) && Told(w, r.values, done) && Publish(w, r, c, stop).1.Finished?
    ensures Told(Publish(w, r, c, stop).0, r.values, done + [c])
  {
    hide Complete, ApiEnv, WorkerEnv, NativeEnv.Tells, PublishDatabase, KeyOf, ConfOf, Contract;
    EnvsTell(r.values);
    PublishSets(w, r, c, stop);
  }

  lemma {:induction false} PublishAllTells(w: World, r: Run, done: seq<Component>, cs: seq<Component>, stop: nat)
    requires Complete(r.values) && Told(w, r.values, done) && PublishAll(w, r, cs, stop).1.Finished?
    ensures Told(PublishAll(w, r, cs, stop).0, r.values, done + cs)
    decreases |cs|
  {
    hide Complete, Publish, PublishAll, Told;
    if cs == [] {
      PublishAllNone(w, r, stop);
      assert done + cs == done;
    } else {
      PublishAllOne(w, r, cs, stop);
      PublishTells(w, r, done, cs[0], stop);
      PublishAllTells(Publish(w, r, cs[0], stop).0, r, done + [cs[0]], cs[1..], stop - STEPS);
      assert done + [cs[0]] + cs[1..] == done + cs;
    }
  }

  /** A finished deployment has published, for each of its components, every configured key but the two
      secrets with its configured value, the API's with the API's log root. */
  lemma FinishedTells(w: World, r: Run)
    requires Deploy(w, r).1.Finished?
    ensures Complete(r.values) && Told(Deploy(w, r).0, r.values, Components(r))
  {
    hide *;
    if Admitted(w, r) {
      AdmittedComplete(w, r);
      DeployAdmitted(w, r);
      var marked := PrepareDirectories(w, r).0;
      NoneTold(marked, r.values);
      PublishAllTells(marked, r, [], Components(r), r.stop - 2);
      assert [] + Components(r) == Components(r);
    } else {
      DeployRefused(w, r);
    }
  }

  // ----- what a finished deployment serves --------------------------------------------------------

  /** The server that runs is the one the settings ask for: its administrator, its set, the one member at
      the advertised host and the configured port. */
  predicate ServesSettings(w: World, v: Values)
    requires Complete(v)
  {
    && w.pending.None?
    && "MONGO_DATA_ROOT" in v && v["MONGO_DATA_ROOT"] in w.data
    && var s := w.data[v["MONGO_DATA_ROOT"]];
    && "MONGO_ADMIN_USER" in v && "MONGO_ADMIN_PASSWORD" in v
    && v["MONGO_ADMIN_USER"] in s.users && s.users[v["MONGO_ADMIN_USER"]] == v["MONGO_ADMIN_PASSWORD"]
    && s.replica.Some? && "MONGO_REPLICA_SET" in v && s.replica.value.name == v["MONGO_REPLICA_SET"]
    && |s.replica.value.members| == 1 && s.replica.value.members[0].id == 0
    && var host := s.replica.value.members[0].host;
    && "MONGO_ADVERTISED_HOST" in v && v["MONGO_ADVERTISED_HOST"] + ":" <= host
    && var port := host[|v["MONGO_ADVERTISED_HOST"]| + 1..];
    && "MONGO_PORT" in v && Bytes.AllDigits(port) && Platform.Int(v["MONGO_PORT"]) == Some(Bytes.Value(port))
  }

  /** The server's own configuration and key file. */
  predicate ServedWith(w: World, v: Values)
    requires Complete(v)
  {
    && w.conf.Some? && "MONGO_PORT" in v && Platform.Int(v["MONGO_PORT"]) == Some(w.conf.value.port)
    && "MONGO_REPLICA_SET" in v && w.conf.value.replicaSet == v["MONGO_REPLICA_SET"]
    && "MONGO_REPLICA_KEY" in v && w.key == Some(v["MONGO_REPLICA_KEY"] + "\n")
  }

  lemma KnownServes(w: World, r: Run)
    requires Complete(r.values) && Given(r.values, "MONGO_ADMIN_USER") && Given(r.values, "MONGO_ADMIN_PASSWORD")
    requires MongoBootstrap.Known(DatabaseWorld(w, r.values).server, DatabaseRun(r).config.settings)
    requires w.pending.None? && r.values["MONGO_DATA_ROOT"] in w.data
    ensures ServesSettings(w, r.values)
  {
    hide MongoBootstrap.MemberHost, Platform.Int, Bytes.Value, Bytes.AllDigits;
    MongoBootstrap.MemberHostExact(DatabaseRun(r).config.settings);
  }

  lemma ServeServes(w: World, r: Run, stop: nat)
    requires Complete(r.values) && Given(r.values, "MONGO_ADMIN_USER") && Given(r.values, "MONGO_ADMIN_PASSWORD")
    requires ServeDatabase(w, r, stop).1.Finished?
    ensures var w' := ServeDatabase(w, r, stop).0;
            ServesSettings(w', r.values) && w'.conf == w.conf && w'.key == w.key
  {
    hide Complete, MongoBootstrap.Served, MongoBootstrap.Servable, MongoBootstrap.Known, DatabaseRun, Contract, ServesSettings;
    var before, run := DatabaseWorld(w, r.values), DatabaseRun(r);
    FinishedServed(before, run, stop);
    MongoBootstrap.ServedExact(before, run, stop);
    KnownServes(ServeDatabase(w, r, stop).0, r);
  }

  lemma FilesServe(w: World, r: Run, stop: nat)
    requires Complete(r.values) && PublishDatabaseFiles(w, r, stop).1.Finished?
    ensures ServedWith(PublishDatabaseFiles(w, r, stop).0, r.values)
  {
    hide Platform.Int;
  }

  lemma DatabaseServes(w: World, r: Run, stop: nat)
    requires Complete(r.values) && Given(r.values, "MONGO_ADMIN_USER") && Given(r.values, "MONGO_ADMIN_PASSWORD")
    requires PublishDatabase(w, r, stop).1.Finished?
    ensures var w' := PublishDatabase(w, r, stop).0; ServesSettings(w', r.values) && ServedWith(w', r.values)
  {
    hide Complete, PublishDatabaseFiles, ServeDatabase, ServesSettings, Marks, Given, Platform.Int;
    var marked := if Marks(w, r) then w.(pending := Some(r.text)) else w;
    FilesServe(marked, r, stop - 1);
    ServeServes(PublishDatabaseFiles(marked, r, stop - 1).0, r, stop - 4);
  }

  predicate Serves(w: World, v: Values, cs: seq<Component>)
    requires Complete(v)
  {
    Database in cs ==> ServesSettings(w, v) && ServedWith(w, v)
  }

  lemma PublishServes(w: World, r: Run, done: seq<Component>, c: Component, stop: nat)
    requires Complete(r.values) && Serves(w, r.values, done) && Publish(w, r, c, stop).1.Finished?
    requires c.Database? ==> Given(r.values, "MONGO_ADMIN_USER") && Given(r.values, "MONGO_ADMIN_PASSWORD")
    ensures Serves(Publish(w, r, c, stop).0, r.values, done + [c])
  {
    hide Complete, Publish, PublishDatabase, ServesSettings, ServedWith, Given, ApiEnv, WorkerEnv, KeyOf, ConfOf, Contract;
    PublishSets(w, r, c, stop);
    if c.Database? {
      IsPublish(w, r, stop);
      DatabaseServes(w, r, stop);
    } else {
      SameServed(w, Publish(w, r, c, stop).0, r.values);
    }
  }

  lemma SameServed(w: World, w': World, v: Values)
    requires Complete(v) && w'.data == w.data && w'.pending == w.pending && w'.conf == w.conf && w'.key == w.key
    ensures (ServesSettings(w, v) ==> ServesSettings(w', v)) && (ServedWith(w, v) ==> ServedWith(w', v))
  {
    hide Complete, Platform.Int, Bytes.Value;
  }

  lemma {:induction false} PublishAllServes(w: World, r: Run, done: seq<Component>, cs: seq<Component>, stop: nat)
    requires Complete(r.values) && Serves(w, r.values, done) && PublishAll(w, r, cs, stop).1.Finished?
    requires Database in cs ==> Given(r.values, "MONGO_ADMIN_USER") && Given(r.values, "MONGO_ADMIN_PASSWORD")
    ensures Serves(PublishAll(w, r, cs, stop).0, r.values, done + cs)
    decreases |cs|
  {
    hide Complete, Publish, PublishAll, Serves, Given;
    if cs == [] {
      PublishAllNone(w, r, stop);
      assert done + cs == done;
    } else {
      PublishAllOne(w, r, cs, stop);
      assert cs[0] in cs && forall c :: c in cs[1..] ==> c in cs;
      PublishServes(w, r, done, cs[0], stop);
      PublishAllServes(Publish(w, r, cs[0], stop).0, r, done + [cs[0]], cs[1..], stop - STEPS);
      assert done + [cs[0]] + cs[1..] == done + cs;
    }
  }

  lemma AdmittedGiven(w: World, r: Run)
    requires Admitted(w, r) && Database in Components(r)
    ensures Given(r.values, "MONGO_ADMIN_USER") && Given(r.values, "MONGO_ADMIN_PASSWORD")
  {
    hide Complete, Components;
  }

  lemma NoneServed(w: World, v: Values)
    requires Complete(v)
    ensures Serves(w, v, [])
  {
  }

  /** A finished deployment of the database has it running as configured: with the configured
      administrator, password and set name, and its member at the advertised host and port. */
  lemma FinishedServes(w: World, r: Run)
    requires Deploy(w, r).1.Finished?
    ensures Complete(r.values) && Serves(Deploy(w, r).0, r.values, Components(r))
  {
    hide *;
    if Admitted(w, r) {
      AdmittedComplete(w, r);
      DeployAdmitted(w, r);
      if Database in Components(r) {
        AdmittedGiven(w, r);
      }
      var marked := PrepareDirectories(w, r).0;
      NoneServed(marked, r.values);
      PublishAllServes(marked, r, [], Components(r), r.stop - 2);
      assert [] + Components(r) == Components(r);
    } else {
      DeployRefused(w, r);
    }
  }

  // ----- what may not change ----------------------------------------------------------------------

  /** A deployment that is not the migration refuses, and changes nothing, when any of these differs from
      what the installation was made with. */
  lemma ChangedRefused(w: World, made: Values, r: Run, key: string)
    requires Complete(made) && w.marker == Some(MarkerOf(made)) && !r.migrate
    requires key in {"SERVICE_USER", "DATA_ROOT", "MONGO_DATA_ROOT", "LOG_ROOT", "API_LOG_ROOT", "ENCRYPTION_KEY",
      "INTERNAL_TOKEN", "BOOTSTRAP_TOKEN", "MONGO_URI", "MONGO_PORT", "MONGO_BIND_IP", "MONGO_ADVERTISED_HOST", "API_PORT",
      "API_BIND_IP", "BACKEND_UPSTREAM", "NODE_PORT", "NODE_URL", "NODE_BIND_IP", "NODE_ID", "DATABASE_NAME"}
    requires key in made && (key !in r.values || r.values[key] != made[key])
    ensures Deploy(w, r) == (w, Refused)
  {
    hide PublishAll, MigrationAllowed, Deploy, PrepareDirectories;
    if Admitted(w, r) {
      SameRestricted(made, r.values, key);
    }
    DeployRefused(w, r);
  }

  lemma SameRestricted(made: Values, v: Values, key: string)
    requires Complete(made) && Complete(v) && key in made
    requires Restrict(made, PINNED) == Restrict(v, PINNED) && Contract(made) == Contract(v)
    ensures key in PINNED + MOVABLE + PROTECTED ==> key in v && v[key] == made[key]
  {
    if key in PINNED {
      assert Restrict(made, PINNED)[key] == Restrict(v, PINNED)[key];
    } else if key in MOVABLE + PROTECTED {
      assert Contract(made)[key] == Contract(v)[key];
    }
  }

  /** The migration refuses when any of the others differs from the published file. */
  lemma MigrationRefused(w: World, r: Run, key: string)
    requires Complete(r.values) && w.marker.Some? && w.marker.value.contract != Contract(r.values)
    requires key in {"ENCRYPTION_KEY", "INTERNAL_TOKEN", "BOOTSTRAP_TOKEN", "MONGO_PORT", "API_PORT", "API_BIND_IP",
      "BACKEND_UPSTREAM", "NODE_PORT", "NODE_URL", "NODE_BIND_IP", "NODE_ID", "DATABASE_NAME"}
    requires w.api.None? || key !in w.api.value || key !in r.values || w.api.value[key] != r.values[key]
    ensures Deploy(w, r) == (w, Refused)
  {
    hide PublishAll, Deploy, PrepareDirectories, Restrict, UriParts;
    assert key in PROTECTED;
    DeployRefused(w, r);
  }
}
