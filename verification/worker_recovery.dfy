/** The crash-safe replacement of the collection Worker.

    One deployer runs `docker compose` commands, one database phase at a time, and may die or raise
    between any two of them; containers may exit, be restarted or be removed at any moment.  A history
    is any sequence of actions; `Apply` says what each does to the host, the journal file and the
    deployer's place in its program.  An action that does not fit the current place does nothing, so
    every sequence is a history and every statement below is about all of them.
 */
module WorkerRecovery {
  import opened Results

  type Container = nat
  type Token = nat
  type Compose = nat // the command prefix: environment file, project and compose file

  /** A database token together with the containers `ps` listed when it was prepared. */
  datatype Job = Job(token: Token, held: set<Container>)

  datatype Journal = Journal(job: Job, compose: Compose)

  /** What the deployer did, in order.  `alive` is what really ran at that instant, and `woken` says
      that something other than the deployer started a container since the last listing. */
  datatype Event =
    | Listed(compose: Compose, found: set<Container>)
    | Prepared(job: Job, ok: bool)
    | Journaled(journal: Journal)
    | StopIssued(job: Job, ok: bool)
    | Inspected(container: Container, isRunning: bool)
    | Completed(token: Token, ok: bool, alive: set<Container>, woken: bool)
    | Unlinked
    | UpIssued(ok: bool, alive: set<Container>, woken: bool)

  datatype Place =
    | Idle
    | Listing(compose: Compose)
    | Reading(compose: Compose)
    | Preparing(compose: Compose, held: set<Container>)
    | Journaling(compose: Compose, job: Job)
    | Stopping(job: Job)
    | Confirming(job: Job)
    | Completing(job: Job)
    | Unlinking
    | Starting

  datatype State = State(
    running: set<Container>,
    known: set<Container>, // containers `docker inspect` can still find
    journal: Option<Journal>,
    completed: set<Token>,
    place: Place,
    woken: bool,
    trace: seq<Event>)

  datatype Action =
    // the environment
    | Exit(container: Container)
    | Wake(container: Container)
    | Remove(container: Container)
    // the deployer dies, or any command raises without effect
    | Crash
    // the deployer's commands; `done` is the effect, `ok` the reported success
    | Begin(compose: Compose)
    | List
    | ReadJournal
    | Prepare(token: Token, ok: bool)
    | WriteJournal
    | Stop(stopped: set<Container>, ok: bool)
    | Inspect
    | Complete(done: bool, ok: bool)
    | Unlink
    | Up(container: Container, done: bool, ok: bool)

  /** `inspect` is given the text `ps` printed: it can only answer when that is one known container. */
  predicate Confirmable(held: set<Container>, known: set<Container>) {
    |held| == 1 && held <= known
  }

  function Only(held: set<Container>): (c: Container)
    requires |held| == 1
    ensures held == {c}
  {
    SingletonHasOne(held);
    var c :| held == {c};
    c
  }

  lemma SingletonHasOne(held: set<Container>)
    requires |held| == 1
    ensures exists c :: held == {c}
  {
    var c :| c in held;
    assert |held - {c}| == 0;
    assert held == {c};
  }

  function Apply(s: State, a: Action): State {
    match a
    case Exit(c) => s.(running := s.running - {c})
    case Wake(c) => s.(running := s.running + {c}, known := s.known + {c}, woken := true)
    case Remove(c) => if c in s.running then s else s.(known := s.known - {c})
    case Crash => s.(place := Idle)
    case Begin(compose) => if s.place.Idle? then s.(place := Listing(compose)) else s
    case List =>
      if !s.place.Listing? then s else
      s.(trace := s.trace + [Listed(s.place.compose, s.running)], woken := false,
         place := if s.running == {} then Reading(s.place.compose) else Preparing(s.place.compose, s.running))
    case ReadJournal =>
      if !s.place.Reading? then s else
      (match s.journal
       case None => s.(place := Starting)
       case Some(j) => s.(place := if j.compose == s.place.compose then Confirming(j.job) else Idle))
    case Prepare(token, ok) =>
      if !s.place.Preparing? then s else
      // not ok: failed, malformed token, or unsafe counters
      var job := Job(token, s.place.held);
      s.(trace := s.trace + [Prepared(job, ok)], place := if ok then Journaling(s.place.compose, job) else Idle)
    case WriteJournal =>
      if !s.place.Journaling? then s else
      var j := Journal(s.place.job, s.place.compose);
      s.(trace := s.trace + [Journaled(j)], journal := Some(j), place := Stopping(j.job))
    case Stop(stopped, ok) =>
      if !s.place.Stopping? then s else
      s.(trace := s.trace + [StopIssued(s.place.job, ok)], running := s.running - stopped,
         place := if ok then Confirming(s.place.job) else Idle)
    case Inspect =>
      if !s.place.Confirming? then s else
      var job := s.place.job;
      if !Confirmable(job.held, s.known) then s.(place := Idle) else
      var c := Only(job.held);
      s.(trace := s.trace + [Inspected(c, c in s.running)],
         place := if c in s.running then s.place else Completing(job))
    case Complete(done, ok) =>
      if !s.place.Completing? then s else
      var t := s.place.job.token;
      s.(trace := s.trace + [Completed(t, ok, s.running, s.woken)],
         completed := if done || ok then s.completed + {t} else s.completed,
         place := if ok then Unlinking else Idle)
    case Unlink =>
      if !s.place.Unlinking? then s else
      s.(trace := s.trace + [Unlinked], journal := None, place := Starting)
    case Up(c, done, ok) =>
      if !s.place.Starting? then s else
      s.(trace := s.trace + [UpIssued(ok, s.running, s.woken)],
         running := if done || ok then s.running + {c} else s.running,
         known := if done || ok then s.known + {c} else s.known,
         place := Idle)
  }

  function Run(s: State, acts: seq<Action>): State {
    if acts == [] then s else Apply(Run(s, acts[..|acts| - 1]), acts[|acts| - 1])
  }

  /** Before the first deployment there is no journal; at most one worker may already be running. */
  predicate Initial(s: State) {
    && s.place.Idle? && s.trace == [] && s.journal.None? && s.completed == {} && !s.woken
    && |s.running| <= 1 && s.running <= s.known
  }

  // ----- what every trace satisfies -------------------------------------------------------------

  /** `complete` is issued straight after an inspect that saw the container stopped, for a token that
      was prepared when exactly that container was listed. */
  ghost predicate CompletionProved(t: seq<Event>, k: nat)
    requires k < |t| && t[k].Completed?
  {
    && k >= 1
    && t[k - 1].Inspected? && !t[k - 1].isRunning
    && Prepared(Job(t[k].token, {t[k - 1].container}), true) in t[..k - 1]
    && (!t[k].woken ==> t[k].alive == {})
  }

  /** The listing with these settings found no worker, and the journal was this one. */
  ghost predicate FoundNone(t: seq<Event>, k: nat, journal: Option<Journal>)
    requires k <= |t|
  {
    && k >= 1 && t[k - 1].Listed? && t[k - 1].found == {} && JournalAfter(t[..k]) == journal
    && (journal.Some? ==> journal.value.compose == t[k - 1].compose)
  }

  /** What must come right before each command.  A token names the non-empty listing made immediately
      before it; only a successful prepare is journaled, with the settings of the listing; only what was
      just journaled is stopped; a container is inspected behind a successful stop, behind an inspect that
      saw it running, or for the journal of a listing that found nothing; the journal goes only behind a
      successful completion; `up` comes behind that, or behind a listing that found nothing and no journal,
      and nothing runs then unless somebody else started it.  So nothing but a new listing ever follows a
      command that failed. */
  ghost predicate EventJustified(t: seq<Event>, k: nat)
    requires k < |t|
  {
    match t[k]
    case Listed(_, _) => true
    case Prepared(job, _) => k >= 1 && t[k - 1].Listed? && t[k - 1].found == job.held && job.held != {}
    case Journaled(j) => k >= 2 && t[k - 1] == Prepared(j.job, true) && t[k - 2] == Listed(j.compose, j.job.held)
    case StopIssued(job, _) => k >= 1 && t[k - 1].Journaled? && t[k - 1].journal.job == job
    case Inspected(c, _) => k >= 1 && Inspectable(t, k, {c})
    case Completed(_, _, _, _) => CompletionProved(t, k)
    case Unlinked => k >= 1 && t[k - 1].Completed? && t[k - 1].ok
    case UpIssued(_, alive, woken) =>
      k >= 1 && (t[k - 1] == Unlinked || FoundNone(t, k, None)) && (!woken ==> alive == {})
  }

  ghost predicate Inspectable(t: seq<Event>, k: nat, held: set<Container>)
    requires k <= |t|
  {
    && k >= 1
    && (|| (t[k - 1].StopIssued? && t[k - 1].ok && t[k - 1].job.held == held)
        || (t[k - 1].Inspected? && t[k - 1].isRunning && held == {t[k - 1].container})
        || (JournalAfter(t[..k]).Some? && JournalAfter(t[..k]).value.job.held == held && FoundNone(t, k, JournalAfter(t[..k]))))
  }

  ghost predicate Justified(t: seq<Event>) {
    forall k :: 0 <= k < |t| ==> EventJustified(t, k)
  }

  /** The journal an outside reader would reconstruct from the trace. */
  ghost function JournalAfter(t: seq<Event>): Option<Journal> {
    if t == [] then None else
    match t[|t| - 1]
    case Journaled(j) => Some(j)
    case Unlinked => None
    case _ => JournalAfter(t[..|t| - 1])
  }

  ghost predicate NoUpOverJournal(t: seq<Event>) {
    forall k :: 0 <= k < |t| && t[k].UpIssued? ==> JournalAfter(t[..k]) == None
  }

  ghost predicate PlaceOk(s: State) {
    var t := s.trace;
    match s.place
    case Idle => true
    case Listing(_) => true
    case Reading(c) => |t| >= 1 && t[|t| - 1] == Listed(c, {}) && (!s.woken ==> s.running == {})
    case Preparing(c, held) => |t| >= 1 && t[|t| - 1] == Listed(c, held) && held != {} && (!s.woken ==> s.running <= held)
    case Journaling(c, job) =>
      |t| >= 2 && t[|t| - 1] == Prepared(job, true) && t[|t| - 2] == Listed(c, job.held) && (!s.woken ==> s.running <= job.held)
    case Stopping(job) =>
      |t| >= 1 && t[|t| - 1].Journaled? && t[|t| - 1].journal.job == job && Prepared(job, true) in t && (!s.woken ==> s.running <= job.held)
    case Confirming(job) => Inspectable(t, |t|, job.held) && Prepared(job, true) in t && (!s.woken ==> s.running <= job.held)
    case Completing(job) =>
      && |t| >= 1 && t[|t| - 1].Inspected? && !t[|t| - 1].isRunning
      && job.held == {t[|t| - 1].container} && Prepared(job, true) in t[..|t| - 1] && (!s.woken ==> s.running == {})
    case Unlinking => |t| >= 1 && t[|t| - 1].Completed? && t[|t| - 1].ok && (!s.woken ==> s.running == {})
    case Starting =>
      s.journal.None? && |t| >= 1 && (t[|t| - 1] == Unlinked || FoundNone(t, |t|, None)) && (!s.woken ==> s.running == {})
  }

  ghost predicate Inv(s: State) {
    && Justified(s.trace)
    && NoUpOverJournal(s.trace)
    && s.journal == JournalAfter(s.trace)
    && (s.journal.Some? ==> Prepared(s.journal.value.job, true) in s.trace)
    && s.running <= s.known
    && PlaceOk(s)
  }

  lemma JustifiedSnoc(t: seq<Event>, e: Event)
    requires Justified(t) && EventJustified(t + [e], |t|)
    ensures Justified(t + [e])
  {
    var u := t + [e];
    forall k | 0 <= k < |u|
      ensures EventJustified(u, k)
    {
      if k < |t| {
        assert u[k] == t[k] && EventJustified(t, k) && u[..k] == t[..k];
        if k >= 1 {
          assert u[k - 1] == t[k - 1] && u[..k - 1] == t[..k - 1];
        }
        if k >= 2 {
          assert u[k - 2] == t[k - 2];
        }
      }
    }
  }

  lemma NoUpSnoc(t: seq<Event>, e: Event)
    requires NoUpOverJournal(t) && (e.UpIssued? ==> JournalAfter(t) == None)
    ensures NoUpOverJournal(t + [e])
    ensures JournalAfter(t + [e]) == match e { case Journaled(j) => Some(j) case Unlinked => None case _ => JournalAfter(t) }
  {
    var u := t + [e];
    assert u[..|t|] == t;
    forall k | 0 <= k < |u| && u[k].UpIssued?
      ensures JournalAfter(u[..k]) == None
    {
      if k < |t| {
        assert u[..k] == t[..k];
      }
    }
  }

  lemma StepKeepsInv(s: State, a: Action)
    requires Inv(s)
    ensures Inv(Apply(s, a))
  {
    StepKeepsTrace(s, a);
    StepKeepsPlace(s, a);
  }

  lemma StepKeepsTrace(s: State, a: Action)
    requires Inv(s)
    ensures var s' := Apply(s, a);
            && Justified(s'.trace) && NoUpOverJournal(s'.trace) && s'.journal == JournalAfter(s'.trace)
            && s.trace <= s'.trace
  {
    hide Justified, NoUpOverJournal, EventJustified, PlaceOk;
    var t, s' := s.trace, Apply(s, a);
    if s'.trace != t {
      var e := s'.trace[|s'.trace| - 1];
      assert s'.trace == t + [e];
      NewJustified(s, a, e);
      JustifiedSnoc(t, e);
      NewUp(s, a, e);
      NoUpSnoc(t, e);
    }
  }

  lemma NewUp(s: State, a: Action, e: Event)
    requires Inv(s) && Apply(s, a).trace == s.trace + [e]
    ensures e.UpIssued? ==> JournalAfter(s.trace) == None
  {
    hide Justified, NoUpOverJournal, EventJustified, JournalAfter, Inspectable;
    assert e == Apply(s, a).trace[|s.trace|];
  }

  /** The place tells what the new event comes behind. */
  lemma NewJustified(s: State, a: Action, e: Event)
    requires Inv(s) && Apply(s, a).trace == s.trace + [e]
    ensures EventJustified(s.trace + [e], |s.trace|)
  {
    hide Justified, NoUpOverJournal, JournalAfter;
    var t := s.trace;
    var u := t + [e];
    assert u[..|t|] == t && t[..|t|] == t;
    assert forall k :: 0 <= k < |t| ==> u[k] == t[k];
    if e.Completed? {
      assert u[..|t| - 1] == t[..|t| - 1];
    }
  }

  lemma StepKeepsPlace(s: State, a: Action)
    requires Inv(s)
    ensures var s' := Apply(s, a);
            && (s'.journal.Some? ==> Prepared(s'.journal.value.job, true) in s'.trace)
            && s'.running <= s'.known && PlaceOk(s')
  {
    hide Inv, Apply, PlaceOk;
    StepKeepsHost(s, a);
    if Apply(s, a).trace == s.trace {
      QuietPlace(s, a);
    } else {
      LoudPlace(s, a);
    }
  }

  lemma StepKeepsHost(s: State, a: Action)
    requires Inv(s)
    ensures var s' := Apply(s, a);
            (s'.journal.Some? ==> Prepared(s'.journal.value.job, true) in s'.trace) && s'.running <= s'.known
  {
    hide Justified, EventJustified, NoUpOverJournal, JournalAfter;
  }

  lemma QuietPlace(s: State, a: Action)
    requires Inv(s) && Apply(s, a).trace == s.trace
    ensures PlaceOk(Apply(s, a))
  {
    hide Justified, EventJustified, NoUpOverJournal, JournalAfter;
    assert s.trace[..|s.trace|] == s.trace;
  }

  lemma LoudPlace(s: State, a: Action)
    requires Inv(s) && Apply(s, a).trace != s.trace
    ensures PlaceOk(Apply(s, a))
  {
    hide Justified, EventJustified, NoUpOverJournal, JournalAfter;
    var t, s' := s.trace, Apply(s, a);
    assert s'.trace == t + [s'.trace[|t|]];
    assert s'.trace[..|t|] == t && t[..|t|] == t && s'.trace[..|s'.trace|] == s'.trace;
  }

  lemma {:induction false} RunKeepsInv(s: State, acts: seq<Action>)
    requires Inv(s)
    ensures Inv(Run(s, acts))
  {
    if acts != [] {
      RunKeepsInv(s, acts[..|acts| - 1]);
      StepKeepsInv(Run(s, acts[..|acts| - 1]), acts[|acts| - 1]);
    }
  }

  /** In every history, however often runs die: each `complete` is proved, and each other command is
      issued only where the protocol allows it. */
  lemma CompleteOnlyAfterStopSeen(s: State, acts: seq<Action>)
    requires Initial(s)
    ensures Justified(Run(s, acts).trace)
  {
    RunKeepsInv(s, acts);
  }

  /** Behind a command that failed the run is over: what comes next, if anything, is the listing of a new
      one. */
  lemma NothingAfterRefusal(s: State, acts: seq<Action>, i: nat)
    requires Initial(s)
    requires i + 1 < |Run(s, acts).trace| && Refusal(Run(s, acts).trace[i])
    ensures Run(s, acts).trace[i + 1].Listed?
  {
    RunKeepsInv(s, acts);
    assert EventJustified(Run(s, acts).trace, i + 1);
  }

  /** While a journal exists no `up` has been issued since it was written. */
  lemma NoUpWhileJournaled(s: State, acts: seq<Action>)
    requires Initial(s)
    ensures var t := Run(s, acts).trace;
            && Run(s, acts).journal == JournalAfter(t)
            && forall i, k :: 0 <= i < k < |t| && t[i].Journaled? && t[k].UpIssued? ==>
                 exists m :: i < m < k && t[m] == Unlinked
    ensures Run(s, acts).journal.Some? ==>
              var t := Run(s, acts).trace;
              exists i :: 0 <= i < |t| && t[i] == Journaled(Run(s, acts).journal.value) && forall k :: i < k < |t| ==> !t[k].UpIssued?
  {
    RunKeepsInv(s, acts);
    var t := Run(s, acts).trace;
    forall i, k | 0 <= i < k < |t| && t[i].Journaled? && t[k].UpIssued?
      ensures exists m :: i < m < k && t[m] == Unlinked
    {
      assert JournalAfter(t[..k]) == None;
      RemovedBetween(t, i, k);
    }
    if Run(s, acts).journal.Some? {
      var i := LastJournaled(t);
      assert t[i] == Journaled(Run(s, acts).journal.value);
    }
  }

  lemma {:induction false} RemovedBetween(t: seq<Event>, i: nat, k: nat)
    requires i < k <= |t| && t[i].Journaled? && JournalAfter(t[..k]) == None
    ensures exists m :: i < m < k && t[m] == Unlinked
  {
    assert t[..k][..k - 1] == t[..k - 1];
    if t[k - 1] != Unlinked {
      assert k - 1 != i;
      RemovedBetween(t, i, k - 1);
    }
  }

  lemma {:induction false} LastJournaled(t: seq<Event>) returns (i: nat)
    requires JournalAfter(t).Some?
    ensures i < |t| && t[i] == Journaled(JournalAfter(t).value)
    ensures forall k :: i < k < |t| ==> t[k] != Unlinked
  {
    if t[|t| - 1].Journaled? {
      i := |t| - 1;
    } else {
      i := LastJournaled(t[..|t| - 1]);
    }
  }

  /** A journaled token is forgotten only when it has been completed, or when a later run found the
      worker running again and journaled a token of its own. */
  lemma JournaledTokenSurvives(s: State, acts: seq<Action>, i: nat)
    requires Initial(s)
    requires i < |Run(s, acts).trace| && Run(s, acts).trace[i].Journaled?
    ensures var t := Run(s, acts).trace;
            || Run(s, acts).journal == Some(t[i].journal)
            || (exists m :: i < m < |t| && t[m].Journaled? && m >= 2 && t[m - 2].Listed? && t[m - 2].found != {})
            || (exists m :: i < m < |t| && t[m].Completed? && t[m].ok && t[m].token == t[i].journal.job.token)
  {
    RunKeepsInv(s, acts);
    OwnKeptRun(s, acts);
    var t := Run(s, acts).trace;
    if exists m :: i < m < |t| && t[m].Journaled? {
      var m :| i < m < |t| && t[m].Journaled?;
      assert EventJustified(t, m) && EventJustified(t, m - 1);
    } else if JournalAfter(t) != Some(t[i].journal) {
      assert t[..|t|] == t;
      SoleJournal(t, i, |t|);
      var m := FirstUnlink(t, i, |t|);
      SoleJournal(t, i, m);
      assert OwnUnlink(t, m);
      assert EventJustified(t, m);
    }
  }

  /** Whoever unlinks the journal has just completed the very token the journal holds. */
  ghost predicate OwnUnlink(t: seq<Event>, m: nat)
    requires m < |t|
  {
    t[m] == Unlinked ==>
      m >= 1 && t[m - 1].Completed? && JournalAfter(t[..m]).Some? && JournalAfter(t[..m]).value.job.token == t[m - 1].token
  }

  ghost predicate Own(s: State) {
    && (forall m :: 0 <= m < |s.trace| ==> OwnUnlink(s.trace, m))
    && match s.place
       case Stopping(job) => s.journal.Some? && s.journal.value.job == job
       case Confirming(job) => s.journal.Some? && s.journal.value.job == job
       case Completing(job) => s.journal.Some? && s.journal.value.job == job
       case Unlinking => s.journal.Some? && |s.trace| >= 1 && s.trace[|s.trace| - 1].Completed? && s.journal.value.job.token == s.trace[|s.trace| - 1].token
       case _ => true
  }

  lemma OwnKept(s: State, a: Action)
    requires Inv(s) && Own(s)
    ensures Own(Apply(s, a))
  {
    OwnKeptTrace(s, a);
  }

  lemma OwnKeptTrace(s: State, a: Action)
    requires Inv(s) && Own(s)
    ensures forall m :: 0 <= m < |Apply(s, a).trace| ==> OwnUnlink(Apply(s, a).trace, m)
  {
    var t, t' := s.trace, Apply(s, a).trace;
    StepKeepsTrace(s, a);
    if t' != t {
      assert t' == t + [t'[|t|]];
    }
    forall m | 0 <= m < |t'|
      ensures OwnUnlink(t', m)
    {
      if m < |t| {
        assert OwnUnlink(t, m);
        assert t'[..m] == t[..m];
      } else {
        assert t'[..m] == t;
      }
    }
  }

  lemma {:induction false} OwnKeptRun(s: State, acts: seq<Action>)
    requires Initial(s)
    ensures Own(Run(s, acts))
  {
    if acts != [] {
      var before := acts[..|acts| - 1];
      OwnKeptRun(s, before);
      RunKeepsInv(s, before);
      OwnKept(Run(s, before), acts[|acts| - 1]);
    }
  }

  lemma {:induction false} SoleJournal(t: seq<Event>, i: nat, k: nat)
    requires i < k <= |t| && t[i].Journaled?
    requires forall m :: i < m < |t| ==> !t[m].Journaled?
    ensures JournalAfter(t[..k]) == Some(t[i].journal) || exists m :: i < m < k && t[m] == Unlinked
  {
    assert t[..k][..k - 1] == t[..k - 1];
    if k - 1 > i && t[k - 1] != Unlinked {
      SoleJournal(t, i, k - 1);
    }
  }

  lemma FirstUnlink(t: seq<Event>, i: nat, k: nat) returns (m: nat)
    requires i < k <= |t| && exists m :: i < m < k && t[m] == Unlinked
    ensures i < m < k && t[m] == Unlinked && forall j :: i < j < m ==> t[j] != Unlinked
  {
    m := i + 1;
    while t[m] != Unlinked
      invariant i < m < k && exists j :: m <= j < k && t[j] == Unlinked
      invariant forall j :: i < j < m ==> t[j] != Unlinked
      decreases k - m
    {
      m := m + 1;
    }
  }

  /** If only the deployer starts containers there are never two workers. */
  lemma {:induction false} NeverTwoWorkers(s: State, acts: seq<Action>)
    requires Initial(s)
    requires forall a :: a in acts ==> !a.Wake?
    ensures |Run(s, acts).running| <= 1
    ensures Run(s, acts).place.Starting? ==> Run(s, acts).running == {}
  {
    Undisturbed(s, acts);
  }

  lemma {:induction false} Undisturbed(s: State, acts: seq<Action>)
    requires Initial(s)
    requires forall a :: a in acts ==> !a.Wake?
    ensures var u := Run(s, acts); Inv(u) && !u.woken && |u.running| <= 1
  {
    if acts != [] {
      var before := acts[..|acts| - 1];
      Undisturbed(s, before);
      assert acts[|acts| - 1] in acts;
      UndisturbedStep(Run(s, before), acts[|acts| - 1]);
    }
  }

  lemma UndisturbedStep(u: State, a: Action)
    requires Inv(u) && !u.woken && |u.running| <= 1 && !a.Wake?
    ensures var v := Apply(u, a); Inv(v) && !v.woken && |v.running| <= 1
  {
    StepKeepsInv(u, a);
    var v := Apply(u, a);
    if v.running <= u.running {
      Smaller(v.running, u.running);
    }
  }

  lemma Smaller(a: set<Container>, b: set<Container>)
    requires a <= b
    ensures |a| <= |b|
  {
    assert b == a + (b - a);
  }

  // ----- recovery -------------------------------------------------------------------------------

  function FinishActs(worker: Container): seq<Action> {
    [Inspect, Complete(true, true), Unlink, Up(worker, true, true)]
  }

  /** One uninterrupted run in which every command succeeds. */
  function Cooperative(s: State, compose: Compose, token: Token, worker: Container): seq<Action> {
    if s.running != {} then
      [Begin(compose), List, Prepare(token, true), WriteJournal, Stop(s.running, true)] + FinishActs(worker)
    else if s.journal.Some? then [Begin(compose), List, ReadJournal] + FinishActs(worker)
    else [Begin(compose), List, ReadJournal, Up(worker, true, true)]
  }

  /** What an operator can check before the run. */
  predicate Recoverable(s: State, compose: Compose) {
    if s.running != {} then Confirmable(s.running, s.known)
    else s.journal.Some? ==> s.journal.value.compose == compose && Confirmable(s.journal.value.job.held, s.known)
  }

  ghost predicate Deployed(s: State, s': State, worker: Container) {
    && s'.place.Idle? && s'.journal.None? && s'.running == {worker}
    && |s'.trace| > |s.trace| && s'.trace[|s'.trace| - 1] == UpIssued(true, {}, s'.woken)
    && (s.running == {} && s.journal.Some? ==> s.journal.value.job.token in s'.completed)
  }

  lemma RunOne(s: State, a: Action)
    ensures Run(s, [a]) == Apply(s, a)
  {
    assert [a][..0] == [];
    assert Run(s, []) == s;
  }

  lemma {:induction false} RunCat(s: State, a: seq<Action>, b: seq<Action>)
    ensures Run(s, a + b) == Run(Run(s, a), b)
  {
    if b == [] {
      assert a + b == a;
    } else {
      RunCat(s, a, b[..|b| - 1]);
      assert (a + b)[..|a + b| - 1] == a + b[..|b| - 1];
    }
  }

  lemma RunCons(s: State, acts: seq<Action>)
    requires acts != []
    ensures Run(s, acts) == Run(Apply(s, acts[0]), acts[1..])
  {
    RunOne(s, acts[0]);
    RunCat(s, [acts[0]], acts[1..]);
    assert [acts[0]] + acts[1..] == acts;
  }

  /** From every idle state, whatever was interrupted before. */
  lemma RecoversFrom(s: State, compose: Compose, token: Token, worker: Container)
    requires s.place.Idle? && Recoverable(s, compose)
    ensures Deployed(s, Run(s, Cooperative(s, compose, token, worker)), worker)
  {
    hide Run;
    var s2 := Apply(Apply(s, Begin(compose)), List);
    var acts := Cooperative(s, compose, token, worker);
    Opening(s, compose, acts);
    if s.running != {} {
      assert acts[2..] == [Prepare(token, true), WriteJournal, Stop(s.running, true)] + FinishActs(worker);
      ReplacesRunning(s2, token, worker);
    } else {
      ResumesOrStarts(s2, compose, worker, acts[2..]);
    }
  }

  lemma Opening(s: State, compose: Compose, acts: seq<Action>)
    requires |acts| >= 2 && acts[0] == Begin(compose) && acts[1] == List
    ensures Run(s, acts) == Run(Apply(Apply(s, Begin(compose)), List), acts[2..])
  {
    RunCons(s, acts);
    RunCons(Apply(s, acts[0]), acts[1..]);
    assert acts[1..][1..] == acts[2..];
  }

  lemma ResumesOrStarts(s: State, compose: Compose, worker: Container, acts: seq<Action>)
    requires s.place == Reading(compose) && s.running == {} && Recoverable(s, compose)
    requires acts == [ReadJournal] + if s.journal.Some? then FinishActs(worker) else [Up(worker, true, true)]
    ensures var s' := Run(s, acts);
            && s'.place.Idle? && s'.journal.None? && s'.running == {worker}
            && |s'.trace| > |s.trace| && s'.trace[|s'.trace| - 1] == UpIssued(true, {}, s'.woken)
            && (s.journal.Some? ==> s.journal.value.job.token in s'.completed)
  {
    var s3 := Apply(s, ReadJournal);
    RunCons(s, acts);
    if s.journal.Some? {
      assert acts[1..] == FinishActs(worker);
      Finish(s3, worker);
    } else {
      assert acts[1..] == [Up(worker, true, true)];
      RunOne(s3, Up(worker, true, true));
    }
  }

  lemma ReplacesRunning(s: State, token: Token, worker: Container)
    requires s.place.Preparing? && s.place.held == s.running && Confirmable(s.running, s.known)
    ensures var s' := Run(s, [Prepare(token, true), WriteJournal, Stop(s.running, true)] + FinishActs(worker));
            && s'.place.Idle? && s'.journal.None? && s'.running == {worker}
            && |s'.trace| == |s.trace| + 7 && s'.trace[|s'.trace| - 1] == UpIssued(true, {}, s'.woken)
  {
    var acts := [Prepare(token, true), WriteJournal, Stop(s.running, true)] + FinishActs(worker);
    var s3 := Apply(s, acts[0]);
    var s4 := Apply(s3, acts[1]);
    var s5 := Apply(s4, acts[2]);
    RunCons(s, acts);
    RunCons(s3, acts[1..]);
    assert acts[1..][1..] == acts[2..];
    RunCons(s4, acts[2..]);
    assert acts[2..][1..] == FinishActs(worker);
    assert s5.running == {};
    Finish(s5, worker);
  }

  lemma Finish(s: State, worker: Container)
    requires s.place.Confirming? && Confirmable(s.place.job.held, s.known) && s.running == {}
    ensures var s' := Run(s, FinishActs(worker));
            && s'.place.Idle? && s'.journal.None? && s'.running == {worker} && s'.completed == s.completed + {s.place.job.token}
            && |s'.trace| == |s.trace| + 4 && s'.trace[|s'.trace| - 1] == UpIssued(true, {}, s'.woken)
  {
    var s1 := Apply(s, Inspect);
    var s2 := Apply(s1, Complete(true, true));
    var s3 := Apply(s2, Unlink);
    RunCons(s, FinishActs(worker));
    assert FinishActs(worker)[1..] == [Complete(true, true), Unlink, Up(worker, true, true)];
    RunCons(s1, [Complete(true, true), Unlink, Up(worker, true, true)]);
    RunCons(s2, [Unlink, Up(worker, true, true)]);
    RunOne(s3, Up(worker, true, true));
  }

  // ----- the protocol's own crash points --------------------------------------------------------

  /** The containers a retry will have to inspect: those of the journal, and those the deployer has
      listed and is about to journal. */
  function Needed(s: State): set<Container> {
    (match s.journal case None => {} case Some(j) => j.job.held) +
    (match s.place
     case Preparing(_, held) => held
     case Journaling(_, job) => job.held
     case _ => {})
  }

  /** One deployment's settings throughout, at most one worker at any time, and nobody removes a
      container a retry will have to inspect.  Crashes, exits, failures and repetitions are free. */
  ghost predicate Tame(s: State, acts: seq<Action>, compose: Compose) {
    forall i :: 0 <= i < |acts| ==> TameAt(s, acts, compose, i)
  }

  ghost predicate TameAt(s: State, acts: seq<Action>, compose: Compose, i: nat)
    requires i < |acts|
  {
    && (acts[i].Begin? ==> acts[i].compose == compose)
    && (acts[i].Remove? ==> acts[i].container !in Needed(Run(s, acts[..i])))
    && |Run(s, acts[..i + 1]).running| <= 1
  }

  /** What the protocol keeps at every step, and not only between runs. */
  ghost predicate Resumable(s: State, compose: Compose) {
    && |s.running| <= 1 && s.running <= s.known
    && JournalResumable(s, compose) && PlaceResumable(s, compose)
  }

  predicate PlaceResumable(s: State, compose: Compose) {
    match s.place
    case Listing(c) => c == compose
    case Reading(c) => c == compose
    case Preparing(c, held) => c == compose && Confirmable(held, s.known)
    case Journaling(c, job) => c == compose && Confirmable(job.held, s.known)
    case _ => true
  }

  predicate TameAction(s: State, compose: Compose, a: Action) {
    (a.Begin? ==> a.compose == compose) && (a.Remove? ==> a.container !in Needed(s))
  }

  lemma StepResumable(s: State, compose: Compose, a: Action)
    requires Resumable(s, compose) && |Apply(s, a).running| <= 1 && TameAction(s, compose, a)
    ensures Resumable(Apply(s, a), compose)
  {
    hide Apply, Confirmable, PlaceResumable, TameAction;
    StepPlaceResumable(s, compose, a);
    StepJournalResumable(s, compose, a);
    RunningKnown(s, a);
  }

  lemma RunningKnown(s: State, a: Action)
    requires s.running <= s.known
    ensures Apply(s, a).running <= Apply(s, a).known
  {
  }

  predicate JournalResumable(s: State, compose: Compose) {
    s.journal.Some? ==> s.journal.value.compose == compose && Confirmable(s.journal.value.job.held, s.known)
  }

  lemma StepJournalResumable(s: State, compose: Compose, a: Action)
    requires JournalResumable(s, compose) && PlaceResumable(s, compose) && TameAction(s, compose, a)
    ensures JournalResumable(Apply(s, a), compose)
  {
    hide Confirmable;
    if s.journal.Some? {
      StillConfirmable(s, a, s.journal.value.job.held);
    }
  }

  lemma StillConfirmable(s: State, a: Action, held: set<Container>)
    requires Confirmable(held, s.known) && (a.Remove? ==> a.container !in held)
    ensures Confirmable(held, Apply(s, a).known)
  {
  }

  lemma StepPlaceResumable(s: State, compose: Compose, a: Action)
    requires Resumable(s, compose) && TameAction(s, compose, a)
    ensures PlaceResumable(Apply(s, a), compose)
  {
    hide Apply, Confirmable;
    match s.place
    case Preparing(_, held) =>
      StillConfirmable(s, a, held);
      FromPreparing(s, compose, a);
    case Journaling(_, job) =>
      StillConfirmable(s, a, job.held);
      FromJournaling(s, compose, a);
    case _ =>
      if s.running != {} {
        OneConfirmable(s.running, s.known);
      }
      FromElsewhere(s, compose, a);
  }

  lemma FromPreparing(s: State, compose: Compose, a: Action)
    requires s.place.Preparing? && s.place.compose == compose && Confirmable(s.place.held, Apply(s, a).known)
    ensures PlaceResumable(Apply(s, a), compose)
  {
    hide Confirmable;
  }

  lemma FromJournaling(s: State, compose: Compose, a: Action)
    requires s.place.Journaling? && s.place.compose == compose && Confirmable(s.place.job.held, Apply(s, a).known)
    ensures PlaceResumable(Apply(s, a), compose)
  {
    hide Confirmable;
  }

  lemma FromElsewhere(s: State, compose: Compose, a: Action)
    requires !s.place.Preparing? && !s.place.Journaling? && PlaceResumable(s, compose)
    requires (a.Begin? ==> a.compose == compose) && (s.running != {} ==> Confirmable(s.running, s.known))
    ensures PlaceResumable(Apply(s, a), compose)
  {
    hide Confirmable;
  }

  lemma OneConfirmable(running: set<Container>, known: set<Container>)
    requires running != {} && |running| <= 1 && running <= known
    ensures Confirmable(running, known)
  {
    var c :| c in running;
    assert |running - {c}| == |running| - 1;
  }

  lemma {:induction false} AlwaysResumable(s: State, acts: seq<Action>, compose: Compose)
    requires Initial(s) && Tame(s, acts, compose)
    ensures Resumable(Run(s, acts), compose)
  {
    hide Resumable, Needed;
    if acts == [] {
      StartResumable(s, compose);
    } else {
      var n := |acts| - 1;
      TamePrefix(s, acts, compose);
      AlwaysResumable(s, acts[..n], compose);
      assert TameAt(s, acts, compose, n) && acts[..n + 1] == acts;
      StepResumable(Run(s, acts[..n]), compose, acts[n]);
    }
  }

  lemma StartResumable(s: State, compose: Compose)
    requires Initial(s)
    ensures Resumable(s, compose)
  {
  }

  lemma TamePrefix(s: State, acts: seq<Action>, compose: Compose)
    requires acts != [] && Tame(s, acts, compose)
    ensures Tame(s, acts[..|acts| - 1], compose)
  {
    hide Run, Needed;
    var before := acts[..|acts| - 1];
    forall i | 0 <= i < |before|
      ensures TameAt(s, before, compose, i)
    {
      assert TameAt(s, acts, compose, i);
      assert before[..i] == acts[..i] && before[..i + 1] == acts[..i + 1];
    }
  }

  /** From every point where a tame history can be interrupted, one uninterrupted cooperative run ends
      with exactly the new worker up and the journal gone, and completes the journaled token of a worker
      that was stopped but not completed. */
  lemma CrashesRecover(s: State, acts: seq<Action>, compose: Compose, token: Token, worker: Container)
    requires Initial(s) && Tame(s, acts, compose)
    ensures var u := Run(s, acts + [Crash]);
            && Recoverable(u, compose)
            && Deployed(u, Run(u, Cooperative(u, compose, token, worker)), worker)
            && u.journal == Run(s, acts).journal && u.running == Run(s, acts).running
  {
    hide Tame;
    AlwaysResumable(s, acts, compose);
    var v, u := Run(s, acts), Run(s, acts + [Crash]);
    assert (acts + [Crash])[..|acts|] == acts;
    assert u == v.(place := Idle);
    if u.running != {} {
      OneConfirmable(u.running, u.known);
    }
    RecoversFrom(u, compose, token, worker);
  }

  /** In particular after every history of such runs in which nobody else starts or removes a
      container. */
  lemma OwnCrashesRecover(s: State, acts: seq<Action>, compose: Compose, token: Token, worker: Container)
    requires Initial(s)
    requires forall a :: a in acts ==> !a.Wake? && !a.Remove? && (a.Begin? ==> a.compose == compose)
    ensures var u := Run(s, acts + [Crash]); Deployed(u, Run(u, Cooperative(u, compose, token, worker)), worker)
  {
    hide Deployed;
    forall i | 0 <= i < |acts|
      ensures TameAt(s, acts, compose, i)
    {
      assert acts[i] in acts;
      NeverTwoWorkers(s, acts[..i + 1]);
    }
    CrashesRecover(s, acts, compose, token, worker);
  }

  /** A deployment interrupted behind its journal, the worker having exited. */
  function Interrupted(compose: Compose, token: Token, c: Container): seq<Action> {
    [Begin(compose), List, Prepare(token, true), WriteJournal, Crash, Exit(c)]
  }

  lemma InterruptedState(s: State, compose: Compose, token: Token, c: Container)
    requires Initial(s) && s.running == {c}
    ensures var u := Run(s, Interrupted(compose, token, c));
            u.place.Idle? && u.running == {} && u.known == s.known && u.journal == Some(Journal(Job(token, {c}), compose))
  {
    hide Run;
    var acts := Interrupted(compose, token, c);
    Opening(s, compose, acts);
    var s2 := Apply(Apply(s, acts[0]), acts[1]);
    RunCons(s2, acts[2..]);
    var s3 := Apply(s2, acts[2]);
    assert acts[2..][1..] == [WriteJournal, Crash, Exit(c)];
    RunCons(s3, [WriteJournal, Crash, Exit(c)]);
    var s4 := Apply(s3, WriteJournal);
    RunCons(s4, [Crash, Exit(c)]);
    RunOne(Apply(s4, Crash), Exit(c));
  }

  /** Each condition of `Tame` is needed.  A retry with other settings than the journal's is stuck. */
  lemma StuckOnOtherSettings(s: State, compose: Compose, other: Compose, token: Token, c: Container)
    requires Initial(s) && s.running == {c} && other != compose
    ensures var u := Run(s, Interrupted(compose, token, c)); u.place.Idle? && !Recoverable(u, other)
  {
    InterruptedState(s, compose, token, c);
  }

  /** So is any retry once the journaled container has been removed. */
  lemma StuckOnRemoval(s: State, compose: Compose, any: Compose, token: Token, c: Container)
    requires Initial(s) && s.running == {c}
    ensures var u := Run(s, Interrupted(compose, token, c) + [Remove(c)]); u.place.Idle? && !Recoverable(u, any)
  {
    hide Run;
    InterruptedState(s, compose, token, c);
    RunCat(s, Interrupted(compose, token, c), [Remove(c)]);
    RunOne(Run(s, Interrupted(compose, token, c)), Remove(c));
  }

  /** And any deployment while two workers run. */
  lemma StuckOnTwoWorkers(s: State, any: Compose, c: Container, d: Container)
    requires Initial(s) && c != d && s.running == {}
    ensures var u := Run(s, [Wake(c), Wake(d)]); u.place.Idle? && u.journal.None? && !Recoverable(u, any)
  {
    hide Run;
    RunCons(s, [Wake(c), Wake(d)]);
    assert [Wake(c), Wake(d)][1..] == [Wake(d)];
    RunOne(Apply(s, Wake(c)), Wake(d));
    assert |{c, d}| == 2;
  }

  predicate OwnAction(a: Action) {
    !a.Exit? && !a.Wake? && !a.Remove? && !a.Begin?
  }

  /** Until something else changes the host, a run that is not recoverable can issue any of its
      commands in any outcome and still never reach `up` or `complete`. */
  lemma {:induction false} OtherwiseStuck(s: State, compose: Compose, acts: seq<Action>)
    requires s.place.Idle? && !Recoverable(s, compose)
    requires forall a :: a in acts ==> OwnAction(a)
    ensures var s' := Run(Apply(s, Begin(compose)), acts);
            && Blocked(s', compose)
            && forall k :: |s.trace| <= k < |s'.trace| ==> !s'.trace[k].UpIssued? && !s'.trace[k].Completed?
  {
    if acts != [] {
      OtherwiseStuck(s, compose, acts[..|acts| - 1]);
      assert acts[|acts| - 1] in acts;
      BlockedStep(Run(Apply(s, Begin(compose)), acts[..|acts| - 1]), compose, acts[|acts| - 1]);
    }
  }

  lemma BlockedStep(s: State, compose: Compose, a: Action)
    requires Blocked(s, compose) && OwnAction(a)
    ensures var s' := Apply(s, a);
            && Blocked(s', compose) && s.trace <= s'.trace
            && forall k :: |s.trace| <= k < |s'.trace| ==> !s'.trace[k].UpIssued? && !s'.trace[k].Completed?
  {
  }

  ghost predicate Blocked(s: State, compose: Compose) {
    match s.place
    case Idle => true
    case Listing(c) => c == compose && !Recoverable(s, compose)
    case Reading(c) => c == compose && s.running == {} && !Recoverable(s, compose)
    case Preparing(_, held) => !Confirmable(held, s.known)
    case Journaling(_, job) => !Confirmable(job.held, s.known)
    case Stopping(job) => !Confirmable(job.held, s.known)
    case Confirming(job) => !Confirmable(job.held, s.known)
    case _ => false
  }

  /** Exactly when a retry can finish: from any idle state, so from every point where a history was
      interrupted, some uninterrupted run with these settings deploys a worker if and only if the
      state is recoverable. */
  lemma RecoveryExact(s: State, compose: Compose, token: Token, worker: Container)
    requires s.place.Idle?
    ensures Recoverable(s, compose) <==>
            exists acts: seq<Action> :: (forall a :: a in acts ==> OwnAction(a)) && Deployed(s, Run(Apply(s, Begin(compose)), acts), worker)
  {
    if Recoverable(s, compose) {
      var all := Cooperative(s, compose, token, worker);
      RecoversFrom(s, compose, token, worker);
      RunCons(s, all);
      assert forall a :: a in all[1..] ==> OwnAction(a);
    } else {
      forall acts: seq<Action> | forall a :: a in acts ==> OwnAction(a)
        ensures !Deployed(s, Run(Apply(s, Begin(compose)), acts), worker)
      {
        OtherwiseStuck(s, compose, acts);
      }
    }
  }

  // ----- the program text -------------------------------------------------------------------------

  datatype Outcome =
    | Failed
    | FirstStart
    | Replaced(token: Token)

  ghost predicate NoUpSince(before: seq<Event>, after: seq<Event>) {
    before <= after && forall k :: |before| <= k < |after| ==> !after[k].UpIssued?
  }

  /** A command that reported failure. */
  predicate Refusal(e: Event) {
    match e
    case Prepared(_, ok) => !ok
    case StopIssued(_, ok) => !ok
    case Completed(_, ok, _, _) => !ok
    case UpIssued(ok, _, _) => !ok
    case _ => false
  }

  ghost predicate NoRefusal(before: seq<Event>, after: seq<Event>) {
    before <= after && forall k :: |before| <= k < |after| ==> !Refusal(after[k])
  }

  /** Where a run may give up: behind a command that failed, or while it cannot confirm the stop: nothing
      answers, the container keeps running, or the journal is another's. */
  ghost predicate MayEndAt(t: seq<Event>) {
    && t != []
    && var last := t[|t| - 1];
       || Refusal(last) || last.StopIssued? || (last.Inspected? && last.isRunning)
       || (last.Listed? && last.found == {} && JournalAfter(t).Some?)
  }

  /** What a result says about the commands this run issued. */
  ghost predicate Fits(r: Outcome, before: seq<Event>, after: seq<Event>) {
    && before <= after
    && var n := |after|;
       match r
       case Failed => n == |before| || MayEndAt(after)
       case FirstStart =>
         && n == |before| + 2 && after[n - 2].Listed? && after[n - 2].found == {} && after[n - 1].UpIssued? && NoRefusal(before, after)
       case Replaced(token) =>
         && n >= |before| + 3 && after[n - 1].UpIssued? && after[n - 2] == Unlinked
         && after[n - 3].Completed? && after[n - 3].token == token && NoRefusal(before, after)
  }

  lemma NothingIssued(before: seq<Event>)
    ensures Fits(Failed, before, before)
  {
  }

  /** What fits behind a listing fits in front of it. */
  lemma FitsBehind(r: Outcome, before: seq<Event>, listed: Event, after: seq<Event>)
    requires listed.Listed? && Fits(r, before + [listed], after) && !r.FirstStart? && |after| > |before| + 1
    ensures Fits(r, before, after)
  {
    assert (before + [listed])[..|before|] == before;
  }

  /** `deploy_worker_with_recovery` with the commands' outcomes left open and the environment acting
      before each of them.  Every execution is a history of the protocol above. */
  class Deployer {
    ghost const start: State
    ghost var acts: seq<Action>
    var state: State

    ghost predicate Valid()
      reads this
    {
      Initial(start) && state == Run(start, acts)
    }

    ghost predicate Reached(place: Place, trace: seq<Event>)
      reads this
    {
      Valid() && state.place == place && state.trace == trace
    }

    constructor (initial: State)
      requires Initial(initial)
      ensures Valid() && start == initial && state == initial
    {
      start, state, acts := initial, initial, [];
    }

    method Do(a: Action)
      requires Valid()
      modifies this`acts, this`state
      ensures Valid() && acts == old(acts) + [a] && state == Apply(old(state), a)
    {
      acts, state := acts + [a], Apply(state, a);
      assert acts[..|acts| - 1] == old(acts);
    }

    method Interference()
      requires Valid()
      modifies this`acts, this`state
      ensures Reached(old(state.place), old(state.trace)) && old(acts) <= acts
      ensures state.journal == old(state.journal)
    {
      var n: nat := *;
      while n > 0
        invariant Reached(old(state.place), old(state.trace)) && old(acts) <= acts && state.journal == old(state.journal)
      {
        var c: Container, kind: nat := *, *;
        Do(if kind == 0 then Exit(c) else if kind == 1 then Wake(c) else Remove(c));
        n := n - 1;
      }
    }

    /** `_stopped_container`: poll until stopped, give up on an unreadable container or on time. */
    method StoppedContainer(job: Job) returns (stopped: bool)
      requires Valid() && state.place == Confirming(job)
      modifies this`acts, this`state
      ensures Valid() && old(acts) <= acts
      ensures state.place == if stopped then Completing(job) else Idle
      ensures NoUpSince(old(state.trace), state.trace) && NoRefusal(old(state.trace), state.trace)
      ensures forall k :: |old(state.trace)| <= k < |state.trace| ==> state.trace[k].Inspected?
      ensures !stopped && |state.trace| > |old(state.trace)| ==> state.trace[|state.trace| - 1].isRunning
    {
      var polls: nat := *;
      while polls > 0
        invariant Valid() && old(acts) <= acts && state.place == Confirming(job) && NoUpSince(old(state.trace), state.trace)
        invariant NoRefusal(old(state.trace), state.trace)
        invariant forall k :: |old(state.trace)| <= k < |state.trace| ==> state.trace[k].Inspected? && state.trace[k].isRunning
      {
        Interference();
        Do(Inspect);
        if state.place != Confirming(job) {
          return state.place.Completing?;
        }
        polls := polls - 1;
      }
      Do(Crash);
      return false;
    }

    /** `complete`, removing the journal and starting the new worker: the tail of both branches. */
    method CompleteAndStart(job: Job) returns (r: Outcome)
      requires Valid() && state.place == Completing(job)
      modifies this`acts, this`state
      ensures Valid() && old(acts) <= acts && state.place.Idle? && |state.trace| > |old(state.trace)|
      ensures Fits(r, old(state.trace), state.trace) && (r == Failed || r == Replaced(job.token))
    {
      Interference();
      var done: bool, ok: bool := *, *;
      Do(Complete(done, ok));
      if !ok {
        return Failed;
      }
      r := UnlinkAndStart(job.token);
    }

    method UnlinkAndStart(token: Token) returns (r: Outcome)
      requires Valid() && state.place == Unlinking && |state.trace| >= 1
      modifies this`acts, this`state
      ensures Valid() && old(acts) <= acts && state.place.Idle? && old(state.trace) <= state.trace
      ensures |state.trace| == |old(state.trace)| + 2
      ensures state.trace[|state.trace| - 2] == Unlinked && state.trace[|state.trace| - 1].UpIssued?
      ensures r == if state.trace[|state.trace| - 1].ok then Replaced(token) else Failed
    {
      Interference();
      Do(Unlink);
      Interference();
      var c: Container, done: bool, ok: bool := *, *, *;
      Do(Up(c, done, ok));
      r := if ok then Replaced(token) else Failed;
    }

    lemma JournalTold()
      requires Valid()
      ensures state.journal == JournalAfter(state.trace)
    {
      RunKeepsInv(start, acts);
    }

    /** No running worker: finish what the journal records, or deploy for the first time. */
    method ResumeOrStart(compose: Compose) returns (r: Outcome)
      requires Valid() && state.place == Reading(compose)
      requires |state.trace| >= 1 && state.trace[|state.trace| - 1] == Listed(compose, {})
      modifies this`acts, this`state
      ensures Valid() && old(acts) <= acts && state.place.Idle? && Fits(r, old(state.trace)[..|old(state.trace)| - 1], state.trace)
      ensures old(state.trace) <= state.trace
      ensures r.FirstStart? ==> old(state.journal).None?
      ensures r.Replaced? ==> old(state.journal).Some? && old(state.journal).value.job.token == r.token
    {
      Interference();
      JournalTold();
      var pending := state.journal;
      Do(ReadJournal);
      if pending.Some? {
        if pending.value.compose != compose {
          return Failed;
        }
        r := Resume(pending.value.job);
        return;
      }
      Interference();
      var c: Container, done: bool, ok: bool := *, *, *;
      Do(Up(c, done, ok));
      return if ok then FirstStart else Failed;
    }

    /** The journal is this deployment's own: confirm the stop and finish. */
    method Resume(job: Job) returns (r: Outcome)
      requires Valid() && state.place == Confirming(job) && MayEndAt(state.trace) && !Refusal(state.trace[|state.trace| - 1])
      modifies this`acts, this`state
      ensures Valid() && old(acts) <= acts && state.place.Idle? && old(state.trace) <= state.trace
      ensures Fits(r, old(state.trace)[..|old(state.trace)| - 1], state.trace) && (r == Failed || r == Replaced(job.token))
    {
      ghost var was := state.trace;
      var stopped := StoppedContainer(job);
      if !stopped {
        assert |state.trace| == |was| ==> state.trace == was;
        return Failed;
      }
      r := CompleteAndStart(job);
    }

    /** A worker was listed: prepare, journal, stop, confirm, complete, start. */
    method ReplaceRunning(compose: Compose, held: set<Container>) returns (r: Outcome)
      requires Valid() && state.place == Preparing(compose, held)
      modifies this`acts, this`state
      ensures Valid() && old(acts) <= acts && state.place.Idle? && Fits(r, old(state.trace), state.trace) && !r.FirstStart?
      ensures |state.trace| > |old(state.trace)|
    {
      Interference();
      var token: Token, ok: bool := *, *;
      Do(Prepare(token, ok));
      if !ok {
        return Failed;
      }
      var job := Job(token, held);
      Interference();
      Do(WriteJournal);
      r := StopAndFinish(job);
    }

    method StopAndFinish(job: Job) returns (r: Outcome)
      requires Valid() && state.place == Stopping(job)
      modifies this`acts, this`state
      ensures Valid() && old(acts) <= acts && state.place.Idle? && Fits(r, old(state.trace), state.trace)
      ensures |state.trace| > |old(state.trace)| && (r == Failed || r == Replaced(job.token))
    {
      Interference();
      var halted: set<Container>, ok: bool := *, *;
      Do(Stop(halted, ok));
      if !ok {
        return Failed;
      }
      var stopped := StoppedContainer(job);
      if !stopped {
        return Failed;
      }
      r := CompleteAndStart(job);
    }

    method DeployWorkerWithRecovery(compose: Compose, built: bool, psAnswers: bool) returns (r: Outcome)
      requires Valid() && state.place.Idle?
      modifies this`acts, this`state
      ensures Valid() && old(acts) <= acts && state.place.Idle? && Fits(r, old(state.trace), state.trace)
      ensures if !built || !psAnswers then r == Failed && state.trace == old(state.trace)
              else |state.trace| > |old(state.trace)| && state.trace[|old(state.trace)|].Listed?
                   && state.trace[|old(state.trace)|].compose == compose
    {
      hide Fits;
      NothingIssued(state.trace);
      if !built {
        return Failed;
      }
      Do(Begin(compose));
      Interference();
      if !psAnswers {
        Do(Crash);
        return Failed;
      }
      var current := state.running;
      ghost var was := state.trace;
      Do(List);
      assert state.trace == was + [Listed(compose, current)] && state.trace[..|was|] == was;
      if current == {} {
        r := ResumeOrStart(compose);
      } else {
        r := ReplaceRunning(compose, current);
        FitsBehind(r, was, Listed(compose, current), state.trace);
      }
    }
  }
}
