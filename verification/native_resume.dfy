/** Which interrupted native deployments and migrations resume. */
module NativeResume {
  import opened Results
  import opened NativeDeploy
  import MongoBootstrap

  // ----- the database behind a run ----------------------------------------------------------------

  /** Wherever a run of the database component stops, the database is as it was, or marked, or somewhere
      behind the start of the server. */
  ghost predicate Reached(m: MongoBootstrap.World, d: MongoBootstrap.Run, m': MongoBootstrap.World) {
    || m' == m || m' == MongoBootstrap.Marked(m, d)
    || exists k: nat :: m' == MongoBootstrap.Served(MongoBootstrap.Marked(m, d), d, k).0
  }

  lemma DatabaseReached(w: World, r: Run, stop: nat)
    requires Complete(r.values)
    ensures Reached(DatabaseWorld(w, r.values), DatabaseRun(r), DatabaseWorld(PublishDatabase(w, r, stop).0, r.values))
  {
    hide Complete, ConfOf, KeyOf, Contract, PublishDatabaseFiles, ServeDatabase, MongoBootstrap.Served;
    var m, d := DatabaseWorld(w, r.values), DatabaseRun(r);
    var marked := if Marks(w, r) then w.(pending := Some(r.text)) else w;
    assert DatabaseWorld(marked, r.values) == MongoBootstrap.Marked(m, d);
    if stop >= 1 {
      FilesOnly(marked, r, stop - 1);
      var w2 := PublishDatabaseFiles(marked, r, stop - 1).0;
      assert DatabaseWorld(w2, r.values) == MongoBootstrap.Marked(m, d);
      if stop >= 4 {
        ServeReached(w2, r, stop - 4);
      }
    }
  }

  lemma FilesOnly(w: World, r: Run, stop: nat)
    requires Complete(r.values)
    ensures var w' := PublishDatabaseFiles(w, r, stop).0; w'.data == w.data && w'.pending == w.pending
    ensures PublishDatabaseFiles(w, r, stop).1.Finished? ==> stop >= 3
  {
    hide Complete, ConfOf, KeyOf;
  }

  lemma ServeReached(w: World, r: Run, stop: nat)
    requires Complete(r.values)
    ensures DatabaseWorld(ServeDatabase(w, r, stop).0, r.values) ==
              MongoBootstrap.Served(DatabaseWorld(w, r.values), DatabaseRun(r), stop).0
  {
    hide Complete, Contract, DatabaseRun;
    var v := r.values;
    var m := MongoBootstrap.Served(DatabaseWorld(w, v), DatabaseRun(r), stop).0;
    ServedUp(DatabaseWorld(w, v), DatabaseRun(r), stop);
    assert DatabaseWorld(WithDatabase(w, v, m), v) == m;
  }

  lemma ServedUp(w: MongoBootstrap.World, r: MongoBootstrap.Run, stop: nat)
    ensures !MongoBootstrap.Served(w, r, stop).0.empty
  {
  }

  /** A finished database component has gone all the way, and refreshed the marker behind a migration. */
  lemma DatabaseFinished(w: World, r: Run, stop: nat)
    requires Complete(r.values) && PublishDatabase(w, r, stop).1.Finished?
    ensures var w' := PublishDatabase(w, r, stop).0;
            && stop >= 4 + MongoBootstrap.SERVED
            && DatabaseWorld(w', r.values) ==
                 MongoBootstrap.Served(MongoBootstrap.Marked(DatabaseWorld(w, r.values), DatabaseRun(r)), DatabaseRun(r), stop - 4).0
            && w'.conf == Some(ConfOf(r.values)) && w'.key == Some(KeyOf(r.values))
            && (r.migrate && w.marker.Some? ==> w'.marker.Some? && w'.marker.value.contract == Contract(r.values))
  {
    hide Complete, ConfOf, KeyOf, Contract, PublishDatabaseFiles, ServeDatabase, MongoBootstrap.Served;
    var m, d := DatabaseWorld(w, r.values), DatabaseRun(r);
    var marked := if Marks(w, r) then w.(pending := Some(r.text)) else w;
    FilesOnly(marked, r, stop - 1);
    FilesWritten(marked, r, stop - 1);
    var w2 := PublishDatabaseFiles(marked, r, stop - 1).0;
    assert DatabaseWorld(w2, r.values) == MongoBootstrap.Marked(m, d);
    ServeReached(w2, r, stop - 4);
    ServeFinished(w2, r, stop - 4);
  }

  lemma FilesWritten(w: World, r: Run, stop: nat)
    requires Complete(r.values) && PublishDatabaseFiles(w, r, stop).1.Finished?
    ensures var w' := PublishDatabaseFiles(w, r, stop).0;
            w'.conf == Some(ConfOf(r.values)) && w'.key == Some(KeyOf(r.values)) && w'.marker == w.marker
  {
    hide Complete, ConfOf, KeyOf;
  }

  lemma ServeFinished(w: World, r: Run, stop: nat)
    requires Complete(r.values) && ServeDatabase(w, r, stop).1.Finished?
    ensures var w' := ServeDatabase(w, r, stop).0;
            && stop >= MongoBootstrap.SERVED && w'.conf == w.conf && w'.key == w.key
            && (r.migrate && w.marker.Some? ==> w'.marker.Some? && w'.marker.value.contract == Contract(r.values))
  {
    hide Complete, Contract, DatabaseRun, DatabaseWorld;
  }

  function Databases(w: World, v: Values): set<string>
    requires Complete(v)
  {
    DatabaseWorld(w, v).server.databases
  }

  lemma ServedDatabases(m: MongoBootstrap.World, d: MongoBootstrap.Run, stop: nat)
    ensures m.server.databases <= MongoBootstrap.Served(m, d, stop).0.server.databases
  {
    hide MongoBootstrap.Initialized, MongoBootstrap.Reconfigure;
    MongoBootstrap.NeverRewritten(m.server, d.config.settings, m.pending.Some?, stop);
    MongoBootstrap.OnlyHostMoves(m.server, d.config.settings, stop);
  }

  lemma PublishDatabases(w: World, r: Run, c: Component, stop: nat)
    requires Complete(r.values)
    ensures Databases(w, r.values) <= Databases(Publish(w, r, c, stop).0, r.values)
  {
    hide Complete, Publish, PublishDatabase, MongoBootstrap.Served, DatabaseWorld;
    var w' := Publish(w, r, c, stop).0;
    if c.Database? {
      IsPublish(w, r, stop);
      DatabaseReached(w, r, stop);
      var m, d := DatabaseWorld(w, r.values), DatabaseRun(r);
      if k: nat :| DatabaseWorld(w', r.values) == MongoBootstrap.Served(MongoBootstrap.Marked(m, d), d, k).0 {
        ServedDatabases(MongoBootstrap.Marked(m, d), d, k);
      }
    } else {
      PublishSets(w, r, c, stop);
      SameDatabase(w, w', r.values);
    }
  }

  lemma {:induction false} PublishAllDatabases(w: World, r: Run, cs: seq<Component>, stop: nat)
    requires Complete(r.values)
    ensures Databases(w, r.values) <= Databases(PublishAll(w, r, cs, stop).0, r.values)
    decreases |cs|
  {
    hide Complete, Publish, PublishAll, Databases;
    if cs == [] {
      PublishAllNone(w, r, stop);
    } else {
      PublishAllOne(w, r, cs, stop);
      PublishDatabases(w, r, cs[0], stop);
      var (w', o) := Publish(w, r, cs[0], stop);
      if o.Finished? && stop >= STEPS {
        PublishAllDatabases(w', r, cs[1..], stop - STEPS);
      }
    }
  }

  /** No deployment or migration, wherever it stops, loses a database. */
  lemma DatabasesKept(w: World, r: Run)
    requires Complete(r.values)
    ensures Databases(w, r.values) <= Databases(Deploy(w, r).0, r.values)
  {
    hide Complete, PublishAll, Admitted, Deploy, Components, Databases;
    if Admitted(w, r) {
      DeployAdmitted(w, r);
      PreparedDatabases(w, r);
      PublishAllDatabases(PrepareDirectories(w, r).0, r, Components(r), if r.stop >= 2 then r.stop - 2 else 0);
    } else {
      DeployRefused(w, r);
    }
  }

  lemma PreparedDatabases(w: World, r: Run)
    requires Complete(r.values)
    ensures Databases(PrepareDirectories(w, r).0, r.values) == Databases(w, r.values)
  {
    hide Complete, MarkerOf;
    SameDatabase(w, PrepareDirectories(w, r).0, r.values);
  }

  // ----- deployments with one configuration -------------------------------------------------------

  /** Deployments of any components with one configuration file. */
  predicate Uses(r: Run, text: string, v: Values) {
    r.text == text && r.values == v && !r.migrate
  }

  /** What happens to the host: such deployments, and applications that log in to the database and create
      databases of their own. */
  datatype Event = Deployed(run: Run) | Created(database: string)

  function After(w: World, v: Values, e: Event): World
    requires Complete(v)
  {
    match e
    case Deployed(run) => Deploy(w, run).0
    case Created(database) =>
      if v["MONGO_DATA_ROOT"] !in w.data then w
      else WithDatabase(w, v, MongoBootstrap.After(DatabaseWorld(w, v), MongoBootstrap.Created(database)))
  }

  function Life(w: World, v: Values, events: seq<Event>): World
    requires Complete(v)
  {
    if events == [] then w else After(Life(w, v, events[..|events| - 1]), v, events[|events| - 1])
  }

  predicate AllUse(events: seq<Event>, text: string, v: Values) {
    forall i :: 0 <= i < |events| ==> events[i].Deployed? ==> Uses(events[i].run, text, v)
  }

  function ConfigOf(text: string, v: Values): MongoBootstrap.Config
    requires Complete(v)
  {
    DatabaseRun(Run(text, v, None, false, 0, false)).config
  }

  /** The states such deployments can be found in, wherever they stopped. */
  predicate Partway(w: World, data: map<string, MongoBootstrap.Server>, text: string, v: Values)
    requires Complete(v)
  {
    && (w.rootEmpty ==> w == Untouched(data))
    && (w.marker.None? ==> w == Untouched(data).(rootEmpty := w.rootEmpty, torn := w.torn))
    && (w.marker.Some? ==> w.marker.value == MarkerOf(v))
    && (w.key.None? || w.key.value == KeyOf(v))
    && MongoBootstrap.Underway(DatabaseWorld(w, v), ConfigOf(text, v))
  }

  lemma UntouchedPartway(data: map<string, MongoBootstrap.Server>, text: string, v: Values)
    requires Complete(v) && v["MONGO_DATA_ROOT"] !in data
    ensures Partway(Untouched(data), data, text, v)
  {
    hide Complete;
    assert DatabaseWorld(Untouched(data), v) == MongoBootstrap.BLANK;
  }

  lemma PublishPartway(w: World, data: map<string, MongoBootstrap.Server>, text: string, r: Run, c: Component, stop: nat)
    requires Complete(r.values) && Uses(r, text, r.values) && w.marker.Some? && Partway(w, data, text, r.values)
    ensures var w' := Publish(w, r, c, stop).0; w'.marker.Some? && Partway(w', data, text, r.values)
  {
    hide Complete, MarkerOf, KeyOf, ConfOf, Contract, ApiEnv, WorkerEnv, Publish, MongoBootstrap.Underway, MongoBootstrap.Served,
         MongoBootstrap.Marked, DatabaseRun, DatabaseWorld;
    PublishSets(w, r, c, stop);
    var w' := Publish(w, r, c, stop).0;
    SameRun(r, text);
    if c.Database? {
      IsPublish(w, r, stop);
      DatabaseReached(w, r, stop);
      var m, d := DatabaseWorld(w, r.values), DatabaseRun(r);
      MongoBootstrap.ServedUnderway(m, d, 0);
      if k: nat :| DatabaseWorld(w', r.values) == MongoBootstrap.Served(MongoBootstrap.Marked(m, d), d, k).0 {
        MongoBootstrap.ServedUnderway(m, d, k);
      }
    } else {
      SameDatabase(w, w', r.values);
    }
  }

  lemma SameRun(r: Run, text: string)
    requires Complete(r.values) && Uses(r, text, r.values)
    ensures DatabaseRun(r).config == ConfigOf(text, r.values) && !DatabaseRun(r).migrate
  {
    hide Complete;
  }

  lemma SameDatabase(a: World, b: World, v: Values)
    requires Complete(v) && a.data == b.data && a.pending == b.pending
    ensures DatabaseWorld(a, v) == DatabaseWorld(b, v)
  {
    hide Complete;
  }

  lemma {:induction false} PublishAllPartway(w: World, data: map<string, MongoBootstrap.Server>, text: string, r: Run, cs: seq<Component>, stop: nat)
    requires Complete(r.values) && Uses(r, text, r.values) && w.marker.Some? && Partway(w, data, text, r.values)
    ensures var w' := PublishAll(w, r, cs, stop).0; w'.marker.Some? && Partway(w', data, text, r.values)
    decreases |cs|
  {
    hide Complete, Partway, Publish, PublishAll, Uses;
    if cs == [] {
      PublishAllNone(w, r, stop);
    } else {
      PublishAllOne(w, r, cs, stop);
      PublishPartway(w, data, text, r, cs[0], stop);
      var (w', o) := Publish(w, r, cs[0], stop);
      if o.Finished? && stop >= STEPS {
        PublishAllPartway(w', data, text, r, cs[1..], stop - STEPS);
      }
    }
  }

  lemma DeployPartway(w: World, data: map<string, MongoBootstrap.Server>, text: string, r: Run)
    requires Complete(r.values) && Uses(r, text, r.values) && Partway(w, data, text, r.values)
    ensures Partway(Deploy(w, r).0, data, text, r.values)
  {
    hide Complete, Partway, PublishAll, Admitted, Deploy, Components, PrepareDirectories, Uses;
    if Admitted(w, r) {
      DeployAdmitted(w, r);
      PreparePartway(w, data, text, r);
      var (marked, o) := PrepareDirectories(w, r);
      if o.Finished? {
        PublishAllPartway(marked, data, text, r, Components(r), r.stop - 2);
      }
    } else {
      DeployRefused(w, r);
    }
  }

  lemma PreparePartway(w: World, data: map<string, MongoBootstrap.Server>, text: string, r: Run)
    requires Complete(r.values) && Partway(w, data, text, r.values)
    ensures var (w', o) := PrepareDirectories(w, r);
            Partway(w', data, text, r.values) && (o.Finished? ==> w'.marker.Some?)
  {
    hide Complete, MarkerOf, KeyOf, MongoBootstrap.Underway, DatabaseWorld;
    SameDatabase(w, PrepareDirectories(w, r).0, r.values);
  }

  lemma CreatedPartway(w: World, data: map<string, MongoBootstrap.Server>, text: string, v: Values, database: string)
    requires Complete(v) && Partway(w, data, text, v) && v["MONGO_DATA_ROOT"] !in data
    ensures var w' := After(w, v, Created(database));
            Partway(w', data, text, v) && w'.torn == w.torn && w'.marker == w.marker && w'.rootEmpty == w.rootEmpty
  {
    hide Complete, MarkerOf, KeyOf, MongoBootstrap.Underway;
    RootGiven(v);
    if v["MONGO_DATA_ROOT"] in w.data {
      var m := DatabaseWorld(w, v);
      var m' := MongoBootstrap.After(m, MongoBootstrap.Created(database));
      MongoBootstrap.CreatedUnderway(m, ConfigOf(text, v), database);
      assert DatabaseWorld(WithDatabase(w, v, m'), v) == m';
    }
  }

  lemma {:induction false} AlwaysPartway(data: map<string, MongoBootstrap.Server>, events: seq<Event>, text: string, v: Values)
    requires Complete(v) && AllUse(events, text, v) && v["MONGO_DATA_ROOT"] !in data
    ensures Partway(Life(Untouched(data), v, events), data, text, v)
  {
    hide Complete, Partway, Deploy;
    if events == [] {
      UntouchedPartway(data, text, v);
    } else {
      var n := |events| - 1;
      assert AllUse(events[..n], text, v) by {
        assert forall i :: 0 <= i < n ==> events[..n][i] == events[i];
      }
      AlwaysPartway(data, events[..n], text, v);
      var w := Life(Untouched(data), v, events[..n]);
      match events[n]
      case Deployed(run) => DeployPartway(w, data, text, run);
      case Created(database) => CreatedPartway(w, data, text, v, database);
    }
  }

  /** The files a run still has to write are not blocked by a write that was cut off. */
  predicate Unblocked(w: World, r: Run)
    requires Complete(r.values)
  {
    forall c :: c in Components(r) ==> Writes(w, r, c) !! w.torn
  }

  lemma PartwayAdmitted(w: World, data: map<string, MongoBootstrap.Server>, text: string, r: Run)
    requires WellFormed(r) && Uses(r, text, r.values) && Partway(w, data, text, r.values)
    requires r.values["MONGO_DATA_ROOT"] !in data
    ensures Admitted(w, r) <==> w.marker.Some? || w.rootEmpty
    ensures w.marker.None? && w.rootEmpty ==> w.torn == {}
  {
    hide Complete, MigrationAllowed, MongoBootstrap.Underway, DatabaseWorld;
  }

  lemma PartwayFit(w: World, data: map<string, MongoBootstrap.Server>, text: string, r: Run, c: Component)
    requires Complete(r.values) && Uses(r, text, r.values) && Partway(w, data, text, r.values)
    ensures Fit(Prepared(w, r), r, c) <==> Writes(w, r, c) !! w.torn
  {
    hide Complete, MarkerOf, KeyOf, MongoBootstrap.Underway, MongoBootstrap.Servable, MongoBootstrap.Marked;
    SameRun(r, text);
    SameDatabase(w, Prepared(w, r), r.values);
    MongoBootstrap.ServedUnderway(DatabaseWorld(w, r.values), DatabaseRun(r), 0);
  }

  /** What a finished deployment of these components has left. */
  predicate Installed(w: World, text: string, v: Values, cs: seq<Component>)
    requires Complete(v)
  {
    && w.marker == Some(MarkerOf(v))
    && (Backend in cs ==> w.api == Some(ApiEnv(v))) && (Worker in cs ==> w.worker == Some(WorkerEnv(v)))
    && (Database in cs ==>
          && w.conf == Some(ConfOf(v)) && w.key == Some(KeyOf(v))
          && w.pending.None? && MongoBootstrap.Settled(DatabaseWorld(w, v), ConfigOf(text, v)))
  }

  /** Whatever deployments with one configuration were started on a host with a fresh data directory, of
      whatever components, and wherever each was stopped, inside a write or between two steps: one more
      undisturbed deployment finishes exactly when none of the files it has to write is blocked, and the
      first of them did not stop between making the directories and writing the marker.  It then leaves
      the whole installation, with the expected single-member set, exactly one administrator and no
      first-start marker, and the applications' databases. */
  lemma InterruptedResumes(data: map<string, MongoBootstrap.Server>, events: seq<Event>, r: Run)
    requires WellFormed(r) && !r.migrate && r.values["MONGO_DATA_ROOT"] !in data && r.stop >= Enough(r)
    requires AllUse(events, r.text, r.values)
    ensures var w := Life(Untouched(data), r.values, events);
            var (w', o) := Deploy(w, r);
            && (o.Finished? <==> (w.marker.Some? || w.rootEmpty) && Unblocked(w, r))
            && (o.Finished? ==> Installed(w', r.text, r.values, Components(r)))
            && Databases(w, r.values) <= Databases(w', r.values)
  {
    hide Databases;
    DatabasesKept(Life(Untouched(data), r.values, events), r);
    hide Life, Partway, Fit, Admitted, Writes, Complete, Installed, Deploy, Prepared, Components;
    assert Complete(r.values) by {
      FormedComplete(r);
    }
    var w := Life(Untouched(data), r.values, events);
    AlwaysPartway(data, events, r.text, r.values);
    PartwayAdmitted(w, data, r.text, r);
    DeployExact(w, r);
    forall c | c in Components(r)
      ensures Fit(Prepared(w, r), r, c) <==> Writes(w, r, c) !! w.torn
    {
      PartwayFit(w, data, r.text, r, c);
    }
    if Deploy(w, r).1.Finished? {
      FinishedInstalls(w, data, r);
    }
  }

  lemma FormedComplete(r: Run)
    requires WellFormed(r)
    ensures Complete(r.values)
  {
  }

  lemma FinishedInstalls(w: World, data: map<string, MongoBootstrap.Server>, r: Run)
    requires WellFormed(r) && !r.migrate && Partway(w, data, r.text, r.values) && Deploy(w, r).1.Finished?
    ensures Installed(Deploy(w, r).0, r.text, r.values, Components(r))
  {
    hide Partway, Admitted, PublishAll, PrepareDirectories, Complete, Installed, Deploy, Components;
    FormedComplete(r);
    if Admitted(w, r) {
      DeployAdmitted(w, r);
      PreparePartway(w, data, r.text, r);
      var marked := PrepareDirectories(w, r).0;
      PublishAllInstalls(marked, data, r, Components(r), r.stop - 2);
    } else {
      DeployRefused(w, r);
    }
  }

  lemma PublishInstalls(w: World, data: map<string, MongoBootstrap.Server>, r: Run, c: Component, stop: nat)
    requires Complete(r.values) && !r.migrate && w.marker.Some? && Partway(w, data, r.text, r.values)
    requires Publish(w, r, c, stop).1.Finished?
    ensures var w' := Publish(w, r, c, stop).0; w'.marker.Some? && Installed(w', r.text, r.values, [c])
  {
    hide Complete, MarkerOf, KeyOf, ConfOf, Contract, ApiEnv, WorkerEnv, MongoBootstrap.Underway, MongoBootstrap.Served,
         MongoBootstrap.Marked, MongoBootstrap.Settled, DatabaseRun, DatabaseWorld, PublishDatabase;
    PublishSets(w, r, c, stop);
    SameRun(r, r.text);
    if c.Database? {
      DatabaseFinished(w, r, stop);
      MongoBootstrap.ServedSettles(DatabaseWorld(w, r.values), DatabaseRun(r), stop - 4);
      PendingOf(Publish(w, r, c, stop).0, r.values);
    }
  }

  lemma PendingOf(w: World, v: Values)
    requires Complete(v)
    ensures DatabaseWorld(w, v).pending == w.pending
  {
    hide Complete;
  }

  /** Later components leave what earlier ones installed. */
  lemma StaysInstalled(w: World, data: map<string, MongoBootstrap.Server>, r: Run, done: seq<Component>, c: Component, stop: nat)
    requires Complete(r.values) && !r.migrate && Partway(w, data, r.text, r.values) && Installed(w, r.text, r.values, done)
    requires Publish(w, r, c, stop).1.Finished?
    ensures Installed(Publish(w, r, c, stop).0, r.text, r.values, done + [c])
  {
    hide Complete, MarkerOf, KeyOf, ConfOf, Contract, ApiEnv, WorkerEnv, MongoBootstrap.Settled, Publish, DatabaseWorld, Partway;
    PublishInstalls(w, data, r, c, stop);
    PublishSets(w, r, c, stop);
    if !c.Database? {
      SameDatabase(w, Publish(w, r, c, stop).0, r.values);
    }
  }

  lemma {:induction false} PublishMoreInstalls(w: World, data: map<string, MongoBootstrap.Server>, r: Run, done: seq<Component>, cs: seq<Component>, stop: nat)
    requires Complete(r.values) && !r.migrate && w.marker.Some? && Partway(w, data, r.text, r.values)
    requires Installed(w, r.text, r.values, done) && PublishAll(w, r, cs, stop).1.Finished?
    ensures Installed(PublishAll(w, r, cs, stop).0, r.text, r.values, done + cs)
    decreases |cs|
  {
    hide Complete, Partway, Installed, Publish, PublishAll;
    if cs == [] {
      PublishAllNone(w, r, stop);
      assert done + cs == done;
    } else {
      PublishAllOne(w, r, cs, stop);
      StaysInstalled(w, data, r, done, cs[0], stop);
      PublishPartway(w, data, r.text, r, cs[0], stop);
      PublishMoreInstalls(Publish(w, r, cs[0], stop).0, data, r, done + [cs[0]], cs[1..], stop - STEPS);
      assert done + [cs[0]] + cs[1..] == done + cs;
    }
  }

  lemma PublishAllInstalls(w: World, data: map<string, MongoBootstrap.Server>, r: Run, cs: seq<Component>, stop: nat)
    requires Complete(r.values) && !r.migrate && w.marker.Some? && Partway(w, data, r.text, r.values)
    requires PublishAll(w, r, cs, stop).1.Finished?
    ensures Installed(PublishAll(w, r, cs, stop).0, r.text, r.values, cs)
  {
    hide PublishAll;
    PublishMoreInstalls(w, data, r, [], cs, stop);
    assert [] + cs == cs;
  }

  /** In particular after every history without a cut-off write and without a stop right behind the making
      of the directories. */
  lemma CleanStopsResume(data: map<string, MongoBootstrap.Server>, events: seq<Event>, r: Run)
    requires WellFormed(r) && !r.migrate && r.values["MONGO_DATA_ROOT"] !in data && r.stop >= Enough(r)
    requires AllUse(events, r.text, r.values) && AllClean(events)
    ensures var (w', o) := Deploy(Life(Untouched(data), r.values, events), r);
            o.Finished? && Installed(w', r.text, r.values, Components(r))
  {
    hide WellFormed, Deploy, Life, Installed, Writes, Complete;
    FormedComplete(r);
    CleanHistory(data, r.values, events);
    InterruptedResumes(data, events, r);
  }

  predicate AllClean(events: seq<Event>) {
    forall i :: 0 <= i < |events| ==> events[i].Deployed? ==> !events[i].run.torn && events[i].run.stop != 1
  }

  lemma {:induction false} CleanHistory(data: map<string, MongoBootstrap.Server>, v: Values, events: seq<Event>)
    requires Complete(v) && AllClean(events)
    ensures var w := Life(Untouched(data), v, events); w.torn == {} && (w.marker.Some? || w.rootEmpty)
  {
    hide Deploy, Complete, DatabaseWorld;
    if events != [] {
      var n := |events| - 1;
      assert forall i :: 0 <= i < n ==> events[..n][i] == events[i];
      CleanHistory(data, v, events[..n]);
      if events[n].Deployed? {
        CleanDeploy(Life(Untouched(data), v, events[..n]), events[n].run);
      }
    }
  }

  lemma CleanDeploy(w: World, r: Run)
    requires !r.torn && r.stop != 1 && w.torn == {} && (w.marker.Some? || w.rootEmpty)
    ensures var w' := Deploy(w, r).0; w'.torn == {} && (w'.marker.Some? || w'.rootEmpty)
  {
    hide Complete, PublishAll, Admitted, Deploy, Components, MarkerOf, WellFormed, MigrationAllowed, Contract, Restrict, Publish, PrepareDirectories;
    if Admitted(w, r) {
      AdmittedComplete(w, r);
      DeployAdmitted(w, r);
      CleanPrepare(w, r);
      var (marked, o) := PrepareDirectories(w, r);
      if o.Finished? {
        CleanPublishAll(marked, r, Components(r), r.stop - 2);
      }
    } else {
      DeployRefused(w, r);
    }
  }

  lemma CleanPrepare(w: World, r: Run)
    requires Complete(r.values) && !r.torn && r.stop != 1 && w.torn == {} && (w.marker.Some? || w.rootEmpty)
    ensures var (w', o) := PrepareDirectories(w, r);
            w'.torn == {} && (w'.marker.Some? || w'.rootEmpty) && (o.Finished? ==> w'.marker.Some?)
  {
    hide Complete, MarkerOf;
  }

  lemma {:induction false} CleanPublishAll(w: World, r: Run, cs: seq<Component>, stop: nat)
    requires Complete(r.values) && !r.torn && w.torn == {} && w.marker.Some?
    ensures var w' := PublishAll(w, r, cs, stop).0; w'.torn == {} && w'.marker.Some?
    decreases |cs|
  {
    hide Complete, Publish, PublishAll;
    if cs == [] {
      PublishAllNone(w, r, stop);
    } else {
      PublishAllOne(w, r, cs, stop);
      PublishSets(w, r, cs[0], stop);
      CleanPublish(w, r, cs[0], stop);
      var (w', o) := Publish(w, r, cs[0], stop);
      if o.Finished? && stop >= STEPS {
        CleanPublishAll(w', r, cs[1..], stop - STEPS);
      }
    }
  }

  lemma CleanPublish(w: World, r: Run, c: Component, stop: nat)
    requires Complete(r.values) && !r.torn
    ensures Publish(w, r, c, stop).0.torn == w.torn
  {
    hide Complete, ConfOf, KeyOf, Contract, ApiEnv, WorkerEnv, DatabaseRun, DatabaseWorld, MongoBootstrap.Served, PublishDatabaseFiles,
         ServeDatabase;
    if c.Database? && stop >= 1 {
      var marked := if Marks(w, r) then w.(pending := Some(r.text)) else w;
      CleanFiles(marked, r, stop - 1);
      if stop >= 4 {
        CleanServe(PublishDatabaseFiles(marked, r, stop - 1).0, r, stop - 4);
      }
    }
  }

  lemma CleanFiles(w: World, r: Run, stop: nat)
    requires Complete(r.values) && !r.torn
    ensures PublishDatabaseFiles(w, r, stop).0.torn == w.torn
  {
    hide Complete, ConfOf, KeyOf;
  }

  lemma CleanServe(w: World, r: Run, stop: nat)
    requires Complete(r.values) && !r.torn
    ensures ServeDatabase(w, r, stop).0.torn == w.torn
  {
    hide Complete, Contract, DatabaseRun, DatabaseWorld, MongoBootstrap.Served;
  }

  /** The condition can fail: a first deployment of the database that is cut off inside the write of its
      configuration has already set the first-start marker, and none that includes the database ever
      finishes. */
  lemma BootstrapCanTear(data: map<string, MongoBootstrap.Server>, r: Run, more: seq<Run>, again: Run)
    requires Admitted(Untouched(data), r) && r.component == Some(Database) && !r.migrate && r.stop == 3 && r.torn
    requires Database in Components(again)
    ensures var w := Deploy(Untouched(data), r).0;
            w.pending == Some(r.text) && ConfFile in w.torn && !Deploy(History(w, more), again).1.Finished?
  {
    hide Complete, MarkerOf, Deploy, Admitted, PublishAll;
    AdmittedComplete(Untouched(data), r);
    DeployAdmitted(Untouched(data), r);
    var marked := PrepareDirectories(Untouched(data), r).0;
    RootFree(data, r);
    PublishAllOne(marked, r, [Database], 1);
    assert ConfFile in PublishDatabase(marked, r, 1).0.torn;
    TornWriteIsStuck(Deploy(Untouched(data), r).0, more, again, Database, ConfFile);
  }

  lemma RootFree(data: map<string, MongoBootstrap.Server>, r: Run)
    requires Admitted(Untouched(data), r) && r.component == Some(Database) && Complete(r.values)
    ensures r.values["MONGO_DATA_ROOT"] !in data
  {
    hide Complete, MigrationAllowed;
  }

  // ----- migrations -------------------------------------------------------------------------------

  /** The migration would go through if it were not for files that are blocked. */
  predicate Migratable(w: World, r: Run) {
    && r.migrate && w.marker.Some? && Admitted(w, r)
    && (w.key.None? || w.key.value == KeyOf(r.values))
    && MongoBootstrap.Servable(DatabaseWorld(w, r.values), DatabaseRun(r))
  }

  predicate AllMigrate(runs: seq<Run>, r: Run) {
    forall i :: 0 <= i < |runs| ==> runs[i].migrate && runs[i].text == r.text && runs[i].values == r.values
  }

  lemma StepMigratable(w: World, r: Run, a: Run)
    requires Migratable(w, r) && a.migrate && a.text == r.text && a.values == r.values
    ensures Migratable(Deploy(w, a).0, r)
  {
    hide Complete, Deploy, PublishAll, Migratable, Publish, Admitted, WellFormed, Components, PrepareDirectories, MigrationAllowed,
         Contract, Restrict;
    if Admitted(w, a) {
      AdmittedFormed(w, a);
      AdmittedComplete(w, a);
      DeployAdmitted(w, a);
      DatabaseOnly(a);
      var (made, o) := PrepareDirectories(w, a);
      MadeMigratable(w, r, a);
      if o.Finished? {
        PublishSole(made, a, a.stop - 2);
        PublishMigratable(made, r, a, a.stop - 2);
      }
    } else {
      DeployRefused(w, a);
    }
  }

  lemma PublishSole(w: World, r: Run, stop: nat)
    requires Complete(r.values)
    ensures PublishAll(w, r, [Database], stop).0 == Publish(w, r, Database, stop).0
    ensures PublishAll(w, r, [Database], stop).1.Finished? ==> Publish(w, r, Database, stop).1.Finished?
  {
    hide Complete, Publish, PublishAll;
    PublishAllOne(w, r, [Database], stop);
    assert [Database][1..] == [];
    if stop >= STEPS {
      PublishAllNone(Publish(w, r, Database, stop).0, r, stop - STEPS);
    }
  }

  lemma AdmittedFormed(w: World, r: Run)
    requires Admitted(w, r)
    ensures WellFormed(r)
  {
  }

  lemma DatabaseOnly(a: Run)
    requires WellFormed(a) && a.migrate
    ensures Components(a) == [Database]
  {
  }

  lemma MadeMigratable(w: World, r: Run, a: Run)
    requires Migratable(w, r) && Complete(a.values)
    ensures Migratable(PrepareDirectories(w, a).0, r) && PrepareDirectories(w, a).0.marker == w.marker
  {
    hide Complete, Restrict, Contract, MongoBootstrap.Servable, DatabaseRun, UriParts;
    AdmittedComplete(w, r);
    SameDatabase(w, PrepareDirectories(w, a).0, r.values);
  }

  lemma PublishMigratable(w: World, r: Run, a: Run, stop: nat)
    requires Migratable(w, r) && a.migrate && a.text == r.text && a.values == r.values && Complete(r.values)
    ensures Migratable(Publish(w, a, Database, stop).0, r)
  {
    hide Complete, KeyOf, ConfOf, Restrict, ApiEnv, WorkerEnv, UriParts, MongoBootstrap.Served, MongoBootstrap.Servable, DatabaseWorld, Publish,
         PublishDatabase;
    var w' := Publish(w, a, Database, stop).0;
    PublishSets(w, a, Database, stop);
    IsPublish(w, a, stop);
    DatabaseReached(w, a, stop);
    var m, d := DatabaseWorld(w, r.values), DatabaseRun(r);
    assert DatabaseRun(a) == d && MongoBootstrap.Marked(m, d) == m;
    if k: nat :| DatabaseWorld(w', r.values) == MongoBootstrap.Served(m, d, k).0 {
      MongoBootstrap.MigrationServable(m, d, k);
    }
  }

  lemma {:induction false} AlwaysMigratable(w: World, runs: seq<Run>, r: Run)
    requires Migratable(w, r) && AllMigrate(runs, r)
    ensures Migratable(History(w, runs), r)
  {
    hide Migratable, Deploy;
    if runs != [] {
      var n := |runs| - 1;
      assert forall i :: 0 <= i < n ==> runs[..n][i] == runs[i];
      AlwaysMigratable(w, runs[..n], r);
      StepMigratable(History(w, runs[..n]), r, runs[n]);
    }
  }

  /** However often an acceptable migration was started and wherever it was stopped, before or behind the
      change in the database and before the marker was refreshed: one more undisturbed run finishes exactly
      when none of the files it writes is blocked.  The marker then has the new contract, and the single
      member the configured address. */
  lemma MigrationResumes(w: World, runs: seq<Run>, r: Run)
    requires Migratable(w, r) && AllMigrate(runs, r) && r.stop >= Enough(r)
    ensures var u := History(w, runs);
            var (u', o) := Deploy(u, r);
            && Complete(r.values)
            && (o.Finished? <==> Writes(u, r, Database) !! u.torn)
            && (o.Finished? ==> && u'.marker.Some? && u'.marker.value.contract == Contract(r.values) && u'.pending.None?
                                && MongoBootstrap.Known(DatabaseWorld(u', r.values).server, DatabaseRun(r).config.settings))
  {
    hide History, Migratable, Deploy, Fit, Writes, Complete, Admitted, Prepared, MongoBootstrap.Known, Contract;
    var u := History(w, runs);
    AlwaysMigratable(w, runs, r);
    MigratableFit(u, r);
    DeployExact(u, r);
    if Deploy(u, r).1.Finished? {
      MigrationFinished(u, r);
    }
  }

  lemma MigratableFit(w: World, r: Run)
    requires Migratable(w, r)
    ensures Complete(r.values) && Admitted(w, r) && w.marker.Some? && Components(r) == [Database]
    ensures Fit(Prepared(w, r), r, Database) <==> Writes(w, r, Database) !! w.torn
  {
    hide Complete, KeyOf, Restrict, Contract, MigrationAllowed, MongoBootstrap.Servable;
    AdmittedComplete(w, r);
    SameDatabase(w, Prepared(w, r), r.values);
    assert MongoBootstrap.Marked(DatabaseWorld(w, r.values), DatabaseRun(r)) == DatabaseWorld(w, r.values);
  }

  lemma MigrationFinished(u: World, r: Run)
    requires Migratable(u, r) && Complete(r.values) && Deploy(u, r).1.Finished?
    ensures var u' := Deploy(u, r).0;
            && u'.marker.Some? && u'.marker.value.contract == Contract(r.values) && u'.pending.None?
            && MongoBootstrap.Known(DatabaseWorld(u', r.values).server, DatabaseRun(r).config.settings)
  {
    hide Complete, Contract, Deploy, PublishAll, Migratable, Publish, PublishDatabase, Admitted, MongoBootstrap.Known, MongoBootstrap.Served,
         MongoBootstrap.Servable, DatabaseRun, DatabaseWorld;
    MigratableFit(u, r);
    FinishedLong(u, r);
    DeployAdmitted(u, r);
    MadeMigratable(u, r, r);
    var made := PrepareDirectories(u, r).0;
    PublishSole(made, r, r.stop - 2);
    IsPublish(made, r, r.stop - 2);
    DatabaseFinished(made, r, r.stop - 2);
    MigratableServed(made, r);
    MongoBootstrap.ServedExact(DatabaseWorld(made, r.values), DatabaseRun(r), r.stop - 6);
    PendingOf(Deploy(u, r).0, r.values);
  }

  lemma MigratableServed(w: World, r: Run)
    requires Migratable(w, r) && Complete(r.values)
    ensures r.migrate && MongoBootstrap.Servable(DatabaseWorld(w, r.values), DatabaseRun(r))
    ensures MongoBootstrap.Marked(DatabaseWorld(w, r.values), DatabaseRun(r)) == DatabaseWorld(w, r.values)
  {
    hide Complete, Admitted, MongoBootstrap.Servable;
  }
}
