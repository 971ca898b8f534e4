/** Clearing up after the NFS check: unmount, withdraw the export, and only then delete. */
module NfsTeardown {
  type Path = string

  // ----- what the system answers ------------------------------------------------------------------

  /** A question about a mount point either fails or is answered truthfully. */
  datatype Look = Fails | Tells

  /** What `umount` does to one mounted layer, and whether the command reports success; it reports
      none where it detached nothing. */
  datatype Umount = Umount(reported: bool, detached: bool)

  datatype Answer = Answer(before: Look, umount: Umount, after: Look)

  /** How deleting a tree ends. */
  datatype Removal = Gone | Left | Raised(left: bool)

  datatype Responses = Responses(mounts: seq<Answer>, unlinkRaises: bool, fileStays: bool, refreshed: bool,
                                 root: Removal, trees: seq<Removal>)

  /** The kernel's mounts by depth, the directories, the export file, whether the root is exported, and
      every tree deletion that was started. */
  datatype World = World(depth: map<Path, nat>, trees: set<Path>, exportFile: bool, exported: bool, started: seq<Path>)

  function Depth(depth: map<Path, nat>, p: Path): nat {
    if p in depth then depth[p] else 0
  }

  datatype Mount = Mount(path: Path, mounted: bool)

  datatype Report = Report(unmounted: map<Path, bool>, exportRemoved: bool, exportsRefreshed: bool, rootRemoved: bool,
                           preserved: seq<Path>, errors: nat)

  // ----- one mount --------------------------------------------------------------------------------

  /** Taken for mounted when the question fails. */
  function Seen(depth: map<Path, nat>, p: Path, look: Look): bool {
    look.Fails? || Depth(depth, p) > 0
  }

  function Unmounted(depth: map<Path, nat>, p: Path, u: Umount): (map<Path, nat>, bool) {
    if Depth(depth, p) == 0 || !u.detached then (depth, false) else (depth[p := depth[p] - 1], u.reported)
  }

  datatype Released = Released(depth: map<Path, nat>, mounts: seq<Mount>, unmounted: map<Path, bool>, errors: nat)

  /** One pass: the kernel afterwards, the record, whether the point was unmounted at all, and errors. */
  function One(depth: map<Path, nat>, m: Mount, a: Answer): (map<Path, nat>, bool, bool, nat) {
    var first := if a.before.Fails? then 1 else 0;
    if !(m.mounted || Seen(depth, m.path, a.before)) then (depth, false, false, first) else
    var (depth', ok) := Unmounted(depth, m.path, a.umount);
    (depth', !ok || Seen(depth', m.path, a.after), true, first + if a.after.Fails? then 1 else 0)
  }

  function ReleaseOne(r: Released, m: Mount, a: Answer): Released {
    var (depth, mounted, asked, errors) := One(r.depth, m, a);
    Released(depth, r.mounts + [Mount(m.path, mounted)],
             if asked then r.unmounted[m.path := !mounted] else r.unmounted, r.errors + errors)
  }

  function Release(depth: map<Path, nat>, mounts: seq<Mount>, answers: seq<Answer>): (r: Released)
    requires |mounts| == |answers|
    ensures |r.mounts| == |mounts| && forall i :: 0 <= i < |mounts| ==> r.mounts[i].path == mounts[i].path
  {
    if mounts == [] then Released(depth, [], map[], 0) else
    var n := |mounts| - 1;
    ReleaseOne(Release(depth, mounts[..n], answers[..n]), mounts[n], answers[n])
  }

  lemma ReleaseNone(depth: map<Path, nat>)
    ensures Release(depth, [], []) == Released(depth, [], map[], 0)
  {
  }

  lemma ReleaseSnoc(depth: map<Path, nat>, mounts: seq<Mount>, answers: seq<Answer>, n: nat)
    requires n < |mounts| == |answers|
    ensures Release(depth, mounts[..n + 1], answers[..n + 1]) ==
              ReleaseOne(Release(depth, mounts[..n], answers[..n]), mounts[n], answers[n])
  {
    hide ReleaseOne;
    assert mounts[..n + 1][..n] == mounts[..n] && answers[..n + 1][..n] == answers[..n];
  }

  predicate AllReleased(mounts: seq<Mount>) {
    forall i :: 0 <= i < |mounts| ==> !mounts[i].mounted
  }

  /** A mount recorded as released really is not mounted, and stays so: unmounting never adds a mount. */
  lemma {:induction false} ReleasedIsTrue(depth: map<Path, nat>, mounts: seq<Mount>, answers: seq<Answer>)
    requires |mounts| == |answers|
    ensures var r := Release(depth, mounts, answers);
            && (forall i :: 0 <= i < |mounts| && !r.mounts[i].mounted ==> Depth(r.depth, mounts[i].path) == 0)
            && (forall p :: Depth(r.depth, p) <= Depth(depth, p))
  {
    if mounts != [] {
      var n := |mounts| - 1;
      ReleasedIsTrue(depth, mounts[..n], answers[..n]);
    }
  }

  /** The report of the mounts names exactly those that were asked to be unmounted, with how that ended:
      what it leaves out is recorded as not mounted. */
  predicate Recorded(mounts: seq<Mount>, unmounted: map<Path, bool>) {
    && (forall i :: 0 <= i < |mounts| ==>
          if mounts[i].path in unmounted then unmounted[mounts[i].path] == !mounts[i].mounted else !mounts[i].mounted)
    && (forall p :: p in unmounted ==> exists i :: 0 <= i < |mounts| && mounts[i].path == p)
  }

  lemma {:induction false} ReleaseRecorded(depth: map<Path, nat>, mounts: seq<Mount>, answers: seq<Answer>)
    requires |mounts| == |answers| && DistinctPaths(mounts)
    ensures var r := Release(depth, mounts, answers); Recorded(r.mounts, r.unmounted)
  {
    hide Release, One;
    if mounts == [] {
      ReleaseNone(depth);
      assert answers == [];
    } else {
      var n := |mounts| - 1;
      ReleaseRecorded(depth, mounts[..n], answers[..n]);
      assert mounts[..n + 1] == mounts && answers[..n + 1] == answers;
      ReleaseSnoc(depth, mounts, answers, n);
      RecordedOne(Release(depth, mounts[..n], answers[..n]), mounts[n], answers[n]);
    }
  }

  lemma RecordedOne(r: Released, m: Mount, a: Answer)
    requires Recorded(r.mounts, r.unmounted) && forall i :: 0 <= i < |r.mounts| ==> r.mounts[i].path != m.path
    ensures var r' := ReleaseOne(r, m, a); Recorded(r'.mounts, r'.unmounted)
  {
    hide Seen, Unmounted;
    var r' := ReleaseOne(r, m, a);
    forall p | p in r'.unmounted
      ensures exists i :: 0 <= i < |r'.mounts| && r'.mounts[i].path == p
    {
      if p in r.unmounted {
        var i :| 0 <= i < |r.mounts| && r.mounts[i].path == p;
        assert r'.mounts[i].path == p;
      } else {
        assert r'.mounts[|r.mounts|].path == p;
      }
    }
  }

  const WILLING := Answer(Tells, Umount(true, true), Tells)

  predicate DistinctPaths(mounts: seq<Mount>) {
    forall i, j :: 0 <= i < j < |mounts| ==> mounts[i].path != mounts[j].path
  }

  /** What can be released at all: mounted once, or neither mounted nor recorded as mounted. */
  predicate Releasable(depth: map<Path, nat>, m: Mount) {
    Depth(depth, m.path) == 1 || (Depth(depth, m.path) == 0 && !m.mounted)
  }

  function Willing(n: nat): (answers: seq<Answer>)
    ensures |answers| == n && forall i :: 0 <= i < n ==> answers[i] == WILLING
  {
    if n == 0 then [] else Willing(n - 1) + [WILLING]
  }

  /** On a host where every command works, exactly the releasable mounts are released. */
  lemma {:induction false} ReleaseExact(depth: map<Path, nat>, mounts: seq<Mount>)
    requires DistinctPaths(mounts)
    ensures var r := Release(depth, mounts, Willing(|mounts|));
            && r.errors == 0
            && (forall i :: 0 <= i < |mounts| ==> (!r.mounts[i].mounted <==> Releasable(depth, mounts[i])))
            && (forall p :: (forall i :: 0 <= i < |mounts| ==> mounts[i].path != p) ==> Depth(r.depth, p) == Depth(depth, p))
  {
    hide One, Depth, Release, Releasable;
    if mounts == [] {
      ReleaseNone(depth);
      assert Willing(0) == [];
    } else {
      var n := |mounts| - 1;
      assert forall i :: 0 <= i < n ==> mounts[..n][i] == mounts[i];
      ReleaseExact(depth, mounts[..n]);
      var answers := Willing(n + 1);
      assert answers[..n] == Willing(n) && mounts[..n + 1] == mounts && answers[..n + 1] == answers;
      ReleaseSnoc(depth, mounts, answers, n);
      var r := Release(depth, mounts[..n], Willing(n));
      assert Depth(r.depth, mounts[n].path) == Depth(depth, mounts[n].path);
      OneWilling(r.depth, mounts[n]);
      SameDepth(r.depth, depth, mounts[n]);
    }
  }

  lemma SameDepth(a: map<Path, nat>, b: map<Path, nat>, m: Mount)
    requires Depth(a, m.path) == Depth(b, m.path)
    ensures Releasable(a, m) <==> Releasable(b, m)
  {
  }

  lemma OneWilling(depth: map<Path, nat>, m: Mount)
    ensures var (depth', mounted, asked, errors) := One(depth, m, WILLING);
            && errors == 0 && (!mounted <==> Releasable(depth, m))
            && forall p :: p != m.path ==> Depth(depth', p) == Depth(depth, p)
  {
  }

  // ----- the whole teardown -----------------------------------------------------------------------

  function AfterRemoval(w: World, p: Path, r: Removal): World {
    w.(started := w.started + [p], trees := if r == Gone || r == Raised(false) then w.trees - {p} else w.trees)
  }

  /** Withdrawing the export. */
  function Withdraw(w: World, r: Responses): World {
    var fileGone := !w.exportFile || !r.fileStays;
    w.(exportFile := !fileGone, exported := if r.refreshed then w.exported && !fileGone else w.exported)
  }

  /** Deleting the client directories, in order. */
  function RemoveTrees(w: World, mounts: seq<Mount>, removals: seq<Removal>): (World, seq<Path>, nat)
    requires |mounts| == |removals|
  {
    if mounts == [] then (w, [], 0) else
    var n := |mounts| - 1;
    var (w1, kept, errors) := RemoveTrees(w, mounts[..n], removals[..n]);
    if mounts[n].mounted then (w1, kept + [mounts[n].path], errors)
    else if removals[n].Gone? then (AfterRemoval(w1, mounts[n].path, Gone), kept, errors)
    else (AfterRemoval(w1, mounts[n].path, removals[n]), kept + [mounts[n].path], errors + 1)
  }

  predicate RootFree(w: World, r: Responses, mounts: seq<Mount>) {
    !w.exportFile && r.refreshed && AllReleased(mounts)
  }

  /** `cleanup`. */
  function Cleaned(w: World, root: Path, mounts: seq<Mount>, r: Responses): (World, seq<Mount>, Report)
    requires |mounts| == |r.mounts| == |r.trees|
  {
    var released := Release(w.depth, mounts, r.mounts);
    var w1 := Withdraw(w.(depth := released.depth), r);
    var free := RootFree(w1, r, released.mounts);
    var w2 := if free then AfterRemoval(w1, root, r.root) else w1;
    var rootRemoved := free && r.root.Gone?;
    var (w3, kept, treeErrors) := RemoveTrees(w2, released.mounts, r.trees);
    (w3, released.mounts,
     Report(released.unmounted, !w1.exportFile, r.refreshed, rootRemoved, (if rootRemoved then [] else [root]) + kept,
            released.errors + (if r.unlinkRaises then 1 else 0) + (if r.refreshed then 0 else 1)
            + (if free && r.root.Raised? then 1 else 0) + treeErrors))
  }

  lemma {:induction false} RemoveTreesStarted(w: World, mounts: seq<Mount>, removals: seq<Removal>)
    requires |mounts| == |removals|
    ensures var w' := RemoveTrees(w, mounts, removals).0;
            && w'.depth == w.depth && w'.exportFile == w.exportFile && w'.exported == w.exported
            && w.started <= w'.started
            && forall j :: |w.started| <= j < |w'.started| ==>
                 exists i :: 0 <= i < |mounts| && !mounts[i].mounted && mounts[i].path == w'.started[j]
  {
    if mounts != [] {
      var n := |mounts| - 1;
      assert forall i :: 0 <= i < n ==> mounts[..n][i] == mounts[i];
      RemoveTreesStarted(w, mounts[..n], removals[..n]);
    }
  }

  lemma {:induction false} RemoveTreesKept(w: World, mounts: seq<Mount>, removals: seq<Removal>)
    requires |mounts| == |removals|
    ensures var (w', kept, errors) := RemoveTrees(w, mounts, removals);
            && w'.trees <= w.trees
            && (forall i :: 0 <= i < |mounts| && mounts[i].path !in kept ==> mounts[i].path !in w'.trees)
            && (forall p :: p in kept ==> exists i :: 0 <= i < |mounts| && mounts[i].path == p)
            && (forall i :: 0 <= i < |mounts| && mounts[i].mounted ==> mounts[i].path in kept)
  {
    if mounts != [] {
      var n := |mounts| - 1;
      assert forall i :: 0 <= i < n ==> mounts[..n][i] == mounts[i];
      RemoveTreesKept(w, mounts[..n], removals[..n]);
    }
  }

  lemma {:induction false} RemoveTreesErrors(w: World, mounts: seq<Mount>, removals: seq<Removal>)
    requires |mounts| == |removals|
    ensures var (w', kept, errors) := RemoveTrees(w, mounts, removals);
            errors == 0 && AllReleased(mounts) <==> kept == []
  {
    hide AfterRemoval;
    if mounts != [] {
      var n := |mounts| - 1;
      RemoveTreesErrors(w, mounts[..n], removals[..n]);
      assert AllReleased(mounts) <==> AllReleased(mounts[..n]) && !mounts[n].mounted by {
        assert forall i :: 0 <= i < n ==> mounts[..n][i] == mounts[i];
      }
    }
  }

  /** Whatever fails: a client directory is deleted only when nothing is mounted on it; the root only
      when, besides, its export file is gone, the exports were refreshed, and no client is mounted
      anywhere. */
  lemma DeletesOnlyUnmounted(w: World, root: Path, mounts: seq<Mount>, r: Responses)
    requires |mounts| == |r.mounts| == |r.trees| && w.started == []
    requires forall i :: 0 <= i < |mounts| ==> mounts[i].path != root
    ensures var (w', mounts', report) := Cleaned(w, root, mounts, r);
            && (forall p :: p in w'.started && p != root ==>
                  Depth(w'.depth, p) == 0 && exists i :: 0 <= i < |mounts| && mounts[i].path == p)
            && (root in w'.started ==>
                  !w'.exportFile && !w'.exported && forall i :: 0 <= i < |mounts| ==> Depth(w'.depth, mounts[i].path) == 0)
  {
    hide Release, RemoveTrees;
    ReleasedIsTrue(w.depth, mounts, r.mounts);
    var released := Release(w.depth, mounts, r.mounts);
    var w1 := Withdraw(w.(depth := released.depth), r);
    var w2 := if RootFree(w1, r, released.mounts) then AfterRemoval(w1, root, r.root) else w1;
    RemoveTreesStarted(w2, released.mounts, r.trees);
    RemoveTreesKept(w2, released.mounts, r.trees);
    RemoveTreesErrors(w2, released.mounts, r.trees);
    var w' := RemoveTrees(w2, released.mounts, r.trees).0;
    forall p | p in w'.started && p != root
      ensures Depth(w'.depth, p) == 0 && exists i :: 0 <= i < |mounts| && mounts[i].path == p
    {
      assert forall k :: 0 <= k < |w2.started| ==> w2.started[k] == root && w'.started[k] == root;
      var j :| 0 <= j < |w'.started| && w'.started[j] == p;
      var i :| 0 <= i < |mounts| && !released.mounts[i].mounted && released.mounts[i].path == p;
      assert mounts[i].path == p;
    }
    if !RootFree(w1, r, released.mounts) {
      forall j | 0 <= j < |w'.started|
        ensures w'.started[j] != root
      {
        var i :| 0 <= i < |mounts| && released.mounts[i].path == w'.started[j];
        assert mounts[i].path == w'.started[j];
      }
    }
  }

  /** A path the report does not list as preserved is gone, and everything still mounted is listed. */
  lemma PreservedComplete(w: World, root: Path, mounts: seq<Mount>, r: Responses)
    requires |mounts| == |r.mounts| == |r.trees|
    ensures var (w', mounts', report) := Cleaned(w, root, mounts, r);
            && (root !in report.preserved ==> root !in w'.trees)
            && (forall i :: 0 <= i < |mounts| && mounts[i].path !in report.preserved ==>
                  mounts[i].path !in w'.trees && Depth(w'.depth, mounts[i].path) == 0)
            && (forall p :: p in report.preserved ==> p == root || exists i :: 0 <= i < |mounts| && mounts[i].path == p)
  {
    hide Release, RemoveTrees;
    ReleasedIsTrue(w.depth, mounts, r.mounts);
    var released := Release(w.depth, mounts, r.mounts);
    var w1 := Withdraw(w.(depth := released.depth), r);
    var w2 := if RootFree(w1, r, released.mounts) then AfterRemoval(w1, root, r.root) else w1;
    RemoveTreesStarted(w2, released.mounts, r.trees);
    RemoveTreesKept(w2, released.mounts, r.trees);
    RemoveTreesErrors(w2, released.mounts, r.trees);
    var (w', kept, errors) := RemoveTrees(w2, released.mounts, r.trees);
    forall p | p in kept
      ensures p == root || exists i :: 0 <= i < |mounts| && mounts[i].path == p
    {
      var i :| 0 <= i < |mounts| && released.mounts[i].path == p;
      assert mounts[i].path == p;
    }
  }

  /** The end of `execute`: passed only without a failure, without errors, and with the root removed. */
  predicate Passes(failed: bool, report: Report) {
    !failed && report.errors == 0 && report.rootRemoved
  }

  /** A passing check leaves nothing behind: no mount, no export, no directory, nothing preserved. */
  lemma PassLeavesNothing(w: World, root: Path, mounts: seq<Mount>, r: Responses, failed: bool)
    requires |mounts| == |r.mounts| == |r.trees|
    requires Passes(failed, Cleaned(w, root, mounts, r).2)
    ensures var (w', mounts', report) := Cleaned(w, root, mounts, r);
            && report.preserved == [] && !w'.exportFile && !w'.exported && root !in w'.trees
            && forall i :: 0 <= i < |mounts| ==> mounts[i].path !in w'.trees && Depth(w'.depth, mounts[i].path) == 0
  {
    hide Release, RemoveTrees;
    ReleasedIsTrue(w.depth, mounts, r.mounts);
    var released := Release(w.depth, mounts, r.mounts);
    var w1 := Withdraw(w.(depth := released.depth), r);
    var w2 := AfterRemoval(w1, root, r.root);
    RemoveTreesStarted(w2, released.mounts, r.trees);
    RemoveTreesKept(w2, released.mounts, r.trees);
    RemoveTreesErrors(w2, released.mounts, r.trees);
    var (w', kept, errors) := RemoveTrees(w2, released.mounts, r.trees);
    assert errors == 0 && kept == [];
    assert Cleaned(w, root, mounts, r).2.preserved == [] + kept;
  }

  function Obliging(n: nat): Responses {
    Responses(Willing(n), false, false, true, Gone, AllGone(n))
  }

  function AllGone(n: nat): (s: seq<Removal>)
    ensures |s| == n && forall i :: 0 <= i < n ==> s[i].Gone?
  {
    if n == 0 then [] else AllGone(n - 1) + [Gone]
  }

  lemma {:induction false} ObligingTrees(w: World, mounts: seq<Mount>, removals: seq<Removal>)
    requires |mounts| == |removals| && forall i :: 0 <= i < |removals| ==> removals[i].Gone?
    ensures RemoveTrees(w, mounts, removals).2 == 0
  {
    if mounts != [] {
      ObligingTrees(w, mounts[..|mounts| - 1], removals[..|mounts| - 1]);
    }
  }

  /** On a host where every command works, a check passes exactly when each mount point was mounted
      once, or was neither mounted nor recorded as mounted.  In particular one recorded as mounted but
      already unmounted is never given up: its directory and the root are kept. */
  lemma CleanupExact(w: World, root: Path, mounts: seq<Mount>)
    requires DistinctPaths(mounts)
    ensures Passes(false, Cleaned(w, root, mounts, Obliging(|mounts|)).2) <==>
              forall i :: 0 <= i < |mounts| ==> Releasable(w.depth, mounts[i])
    ensures forall i :: 0 <= i < |mounts| && !Releasable(w.depth, mounts[i]) ==>
              mounts[i].path in Cleaned(w, root, mounts, Obliging(|mounts|)).2.preserved
              && root in Cleaned(w, root, mounts, Obliging(|mounts|)).2.preserved
  {
    hide Release, RemoveTrees, Willing, AllGone, Releasable;
    var r := Obliging(|mounts|);
    ReleaseExact(w.depth, mounts);
    var released := Release(w.depth, mounts, r.mounts);
    var w1 := Withdraw(w.(depth := released.depth), r);
    var w2 := if RootFree(w1, r, released.mounts) then AfterRemoval(w1, root, r.root) else w1;
    ObligingTrees(w2, released.mounts, r.trees);
    RemoveTreesStarted(w2, released.mounts, r.trees);
    RemoveTreesKept(w2, released.mounts, r.trees);
    RemoveTreesErrors(w2, released.mounts, r.trees);
  }

  // ----- the program text -------------------------------------------------------------------------

  class MountPoint {
    const path: Path
    var mounted: bool

    constructor (path: Path, mounted: bool)
      ensures this.path == path && this.mounted == mounted
    {
      this.path, this.mounted := path, mounted;
    }
  }

  function Records(points: seq<MountPoint>): (mounts: seq<Mount>)
    reads set p | p in points
    ensures |mounts| == |points|
    ensures forall i :: 0 <= i < |points| ==> mounts[i] == Mount(points[i].path, points[i].mounted)
  {
    if points == [] then [] else
    Records(points[..|points| - 1]) + [Mount(points[|points| - 1].path, points[|points| - 1].mounted)]
  }

  class Host {
    var depth: map<Path, nat>
    var trees: set<Path>
    var exportFile: bool
    var exported: bool
    var started: seq<Path>

    ghost function View(): World
      reads this
    {
      World(depth, trees, exportFile, exported, started)
    }

    constructor (w: World)
      ensures View() == w
    {
      depth, trees, exportFile, exported, started := w.depth, w.trees, w.exportFile, w.exported, w.started;
    }

    method Unmount(p: Path, u: Umount) returns (ok: bool)
      modifies this`depth
      ensures (depth, ok) == Unmounted(old(depth), p, u)
    {
      if Depth(depth, p) == 0 || !u.detached {
        return false;
      }
      depth := depth[p := depth[p] - 1];
      return u.reported;
    }

    method RemoveTree(p: Path, r: Removal)
      modifies this`started, this`trees
      ensures View() == AfterRemoval(old(View()), p, r)
    {
      started := started + [p];
      if r == Gone || r == Raised(false) {
        trees := trees - {p};
      }
    }

    /** One pass of that loop. */
    method ReleasePoint(mount: MountPoint, answer: Answer) returns (asked: bool, errors: nat)
      modifies this`depth, mount`mounted
      ensures (depth, mount.mounted, asked, errors) == One(old(depth), Mount(mount.path, old(mount.mounted)), answer)
    {
      asked, errors := false, 0;
      var actual := answer.before.Fails? || Depth(depth, mount.path) > 0;
      if answer.before.Fails? {
        errors := errors + 1;
      }
      if mount.mounted || actual {
        asked := true;
        var ok := Unmount(mount.path, answer.umount);
        actual := answer.after.Fails? || Depth(depth, mount.path) > 0;
        if answer.after.Fails? {
          errors := errors + 1;
        }
        mount.mounted := !ok || actual;
      }
    }

    /** The first loop of `cleanup`: every mount point is asked about, unmounted and asked about again. */
    method ReleaseAll(points: seq<MountPoint>, answers: seq<Answer>) returns (unmounted: map<Path, bool>, errors: nat)
      requires |points| == |answers|
      requires forall i, j :: 0 <= i < j < |points| ==> points[i] != points[j]
      modifies this`depth, set p | p in points
      ensures Release(old(depth), old(Records(points)), answers) == Released(depth, Records(points), unmounted, errors)
    {
      hide One, Records, Release;
      unmounted, errors := map[], 0;
      ghost var was := Records(points);
      ghost var r := Release(depth, [], []);
      ReleaseNone(depth);
      var i := 0;
      while i < |points|
        invariant i <= |points| && r == Release(old(depth), was[..i], answers[..i])
        invariant r.depth == depth && r.unmounted == unmounted && r.errors == errors
        invariant forall k :: 0 <= k < i ==> points[k].mounted == r.mounts[k].mounted
        invariant forall k :: i <= k < |points| ==> points[k].mounted == was[k].mounted
      {
        var asked, failed := ReleasePoint(points[i], answers[i]);
        errors := errors + failed;
        if asked {
          unmounted := unmounted[points[i].path := !points[i].mounted];
        }
        ReleaseSnoc(old(depth), was, answers, i);
        r := ReleaseOne(r, was[i], answers[i]);
        i := i + 1;
      }
      assert points[..|points|] == points && was[..|points|] == was && answers[..|points|] == answers;
      assert Records(points) == r.mounts;
    }

    /** The last loop of `cleanup`. */
    method RemoveReleased(points: seq<MountPoint>, removals: seq<Removal>) returns (kept: seq<Path>, errors: nat)
      requires |points| == |removals|
      modifies this`started, this`trees
      ensures (View(), kept, errors) == RemoveTrees(old(View()), Records(points), removals)
    {
      hide Records, AfterRemoval;
      kept, errors := [], 0;
      ghost var mounts := Records(points);
      var i := 0;
      while i < |points|
        invariant i <= |points| && mounts == Records(points)
        invariant (View(), kept, errors) == RemoveTrees(old(View()), mounts[..i], removals[..i])
      {
        assert mounts[..i + 1][..i] == mounts[..i] && removals[..i + 1][..i] == removals[..i];
        if points[i].mounted {
          kept := kept + [points[i].path];
        } else {
          RemoveTree(points[i].path, removals[i]);
          if !removals[i].Gone? {
            errors, kept := errors + 1, kept + [points[i].path];
          }
        }
        i := i + 1;
      }
      assert mounts[..|points|] == mounts && removals[..|points|] == removals;
    }

    /** Deleting the export file and refreshing the exports. */
    method WithdrawExport(r: Responses) returns (errors: nat)
      modifies this`exportFile, this`exported
      ensures View() == Withdraw(old(View()), r)
      ensures errors == (if r.unlinkRaises then 1 else 0) + (if r.refreshed then 0 else 1)
    {
      errors := if r.unlinkRaises then 1 else 0;
      exportFile := exportFile && r.fileStays;
      if r.refreshed {
        exported := exported && exportFile;
      } else {
        errors := errors + 1;
      }
    }

    /** `cleanup`. */
    method Cleanup(root: Path, points: seq<MountPoint>, r: Responses) returns (report: Report)
      requires |points| == |r.mounts| == |r.trees|
      requires forall i, j :: 0 <= i < j < |points| ==> points[i] != points[j]
      modifies this, set p | p in points
      ensures (View(), Records(points), report) == Cleaned(old(View()), root, old(Records(points)), r)
    {
      hide Release, RemoveTrees, AfterRemoval, Records, Withdraw;
      var unmounted, errors := ReleaseAll(points, r.mounts);
      var failed := WithdrawExport(r);
      errors := errors + failed;
      var exportRemoved := !exportFile;
      var rootRemoved := exportRemoved && r.refreshed && forall i :: 0 <= i < |points| ==> !points[i].mounted;
      var preserved: seq<Path> := [];
      if rootRemoved {
        RemoveTree(root, r.root);
        rootRemoved := r.root.Gone?;
        if r.root.Raised? {
          errors := errors + 1;
        }
      }
      if !rootRemoved {
        preserved := [root];
      }
      var kept, more := RemoveReleased(points, r.trees);
      return Report(unmounted, exportRemoved, r.refreshed, rootRemoved, preserved + kept, errors + more);
    }
  }
}
