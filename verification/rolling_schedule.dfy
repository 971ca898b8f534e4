/** Two polling disciplines against every schedule of one writer.

    The writer carries out a plan: the final contents of its files, written in order, each file
    published when the one before it is complete.  An observer reads, may then look at the catalogue,
    and at the end of a turn moves to the next file when its read was empty and one is queued.  One
    discipline reads again after every discovery, the other does not. */
module RollingSchedule {
  import opened Bytes
  import opened RollingLog

  datatype Phase = MustRead | MayList | Listed

  datatype State = State(
    files: seq<bytes>, // all of them listed
    cur: nat,
    offset: nat,
    seen: nat, // files `cur + 1 .. seen` are queued
    consumed: bytes,
    phase: Phase,
    empty: bool, // the read of this turn
    discovered: bool) // by the listing of this turn

  datatype Action =
    | Write(count: nat)
    | Publish
    | Read(count: nat)
    | List
    | EndTurn

  const BEGIN := State([[]], 0, 0, 1, [], MustRead, false, false)

  function Min(a: nat, b: nat): nat {
    if a <= b then a else b
  }

  function Apply(plan: seq<bytes>, rereads: bool, s: State, a: Action): State
    requires Follows(plan, s)
  {
    var last := |s.files| - 1;
    match a
    case Write(count) =>
      s.(files := s.files[last := plan[last][..Min(|s.files[last]| + count, |plan[last]|)]])
    case Publish =>
      if s.files[last] == plan[last] && |s.files| < |plan| then s.(files := s.files + [[]]) else s
    case Read(count) =>
      if !s.phase.MustRead? then s else
      var k := Min(if count == 0 then 1 else count, |s.files[s.cur]| - s.offset);
      s.(offset := s.offset + k, consumed := s.consumed + s.files[s.cur][s.offset..s.offset + k],
         phase := MayList, empty := k == 0, discovered := false)
    case List =>
      if !s.phase.MayList? || (rereads && !s.empty) then s else
      s.(seen := |s.files|, discovered := s.seen < |s.files|, phase := Listed)
    case EndTurn =>
      if s.phase.MustRead? then s else
      if s.empty && s.cur + 1 < s.seen && !(rereads && s.discovered)
      then s.(cur := s.cur + 1, offset := 0, phase := MustRead)
      else s.(phase := MustRead)
  }

  /** The files written so far follow the plan, and the observer stands inside them. */
  ghost predicate Follows(plan: seq<bytes>, s: State) {
    && 1 <= |s.files| <= |plan|
    && (forall k :: 0 <= k < |s.files| - 1 ==> s.files[k] == plan[k])
    && s.files[|s.files| - 1] <= plan[|s.files| - 1]
    && s.cur < s.seen <= |s.files| && s.offset <= |s.files[s.cur]|
  }

  lemma StepFollows(plan: seq<bytes>, rereads: bool, s: State, a: Action)
    requires Follows(plan, s)
    ensures Follows(plan, Apply(plan, rereads, s, a))
  {
  }

  ghost function Run(plan: seq<bytes>, rereads: bool, acts: seq<Action>): (s: State)
    requires plan != []
    ensures Follows(plan, s)
  {
    if acts == [] then BEGIN else
    var before := Run(plan, rereads, acts[..|acts| - 1]);
    StepFollows(plan, rereads, before, acts[|acts| - 1]);
    Apply(plan, rereads, before, acts[|acts| - 1])
  }

  /** Nothing before the observer's position has been skipped. */
  ghost predicate Lossless(s: State) {
    s.cur < |s.files| && s.offset <= |s.files[s.cur]| && s.consumed == Upto(s.files, s.cur, s.offset)
  }

  /** Leaving the current file now would lose nothing, now or later. */
  ghost predicate MayLeave(plan: seq<bytes>, s: State)
    requires Follows(plan, s)
  {
    s.offset == |plan[s.cur]|
  }

  ghost predicate Safe(plan: seq<bytes>, rereads: bool, s: State) {
    && Follows(plan, s) && Lossless(s)
    && (rereads ==> !s.phase.MustRead? && s.empty && s.cur + 1 < s.seen && !s.discovered ==> MayLeave(plan, s))
    && (rereads && s.phase.MayList? ==> !s.discovered)
  }

  /** Only the last file of the plan holds anything. */
  predicate NothingBeforeLast(plan: seq<bytes>) {
    forall k :: 0 <= k < |plan| - 1 ==> plan[k] == []
  }

  lemma StepSafe(plan: seq<bytes>, rereads: bool, s: State, a: Action)
    requires Safe(plan, rereads, s) && (rereads || NothingBeforeLast(plan))
    ensures Safe(plan, rereads, Apply(plan, rereads, s, a))
  {
    hide Upto;
    var s' := Apply(plan, rereads, s, a);
    StepFollows(plan, rereads, s, a);
    match a
    case Read(count) =>
      if s' != s {
        UptoRead(s.files, s.cur, s.offset, s'.offset - s.offset);
      }
    case EndTurn =>
      if s'.cur != s.cur {
        assert s.files[s.cur] == plan[s.cur];
        UptoNext(s.files, s.cur);
      }
    case List =>
    case _ =>
      var a, b := Log(s.files, |s.files|), Log(s'.files, |s'.files|);
      UptoStable(a, b, s.cur, s.offset);
  }

  lemma {:induction false} AlwaysSafe(plan: seq<bytes>, rereads: bool, acts: seq<Action>)
    requires plan != [] && (rereads || NothingBeforeLast(plan))
    ensures Safe(plan, rereads, Run(plan, rereads, acts))
  {
    if acts == [] {
      FirstFile(BEGIN.files);
      assert BEGIN.files[..0] == [];
    } else {
      AlwaysSafe(plan, rereads, acts[..|acts| - 1]);
      StepSafe(plan, rereads, Run(plan, rereads, acts[..|acts| - 1]), acts[|acts| - 1]);
    }
  }

  /** Reading again after every discovery loses nothing, whatever the plan and the schedule. */
  lemma RereadingNeverSkips(plan: seq<bytes>, acts: seq<Action>)
    requires plan != []
    ensures Lossless(Run(plan, true, acts))
    ensures Run(plan, true, acts).consumed <= Flatten(plan)
  {
    AlwaysSafe(plan, true, acts);
    var s := Run(plan, true, acts);
    PlanExtends(plan, s);
  }

  lemma PlanExtends(plan: seq<bytes>, s: State)
    requires Follows(plan, s) && Lossless(s)
    ensures s.consumed <= Flatten(plan)
  {
    UptoIsPrefix(plan, s.cur, s.offset);
    assert s.files[..s.cur] == plan[..s.cur];
    assert s.files[s.cur][..s.offset] == plan[s.cur][..s.offset];
  }

  /** Without the second read a schedule that skips bytes exists as soon as a file that is not the
      last one holds anything; otherwise no schedule does. */
  lemma SkippingExact(plan: seq<bytes>)
    requires plan != []
    ensures (forall acts :: Lossless(Run(plan, false, acts))) <==> NothingBeforeLast(plan)
  {
    if NothingBeforeLast(plan) {
      forall acts
        ensures Lossless(Run(plan, false, acts))
      {
        AlwaysSafe(plan, false, acts);
      }
    } else {
      var k :| 0 <= k < |plan| - 1 && plan[k] != [];
      Loses(plan, k);
    }
  }

  lemma {:induction false} RunCat(plan: seq<bytes>, rereads: bool, a: seq<Action>, x: Action)
    requires plan != []
    ensures Run(plan, rereads, a + [x]) == Apply(plan, rereads, Run(plan, rereads, a), x)
  {
    assert (a + [x])[..|a|] == a;
  }

  /** The observer has just moved to an empty last file. */
  ghost predicate Waiting(plan: seq<bytes>, s: State) {
    && Follows(plan, s) && s.phase.MustRead? && s.cur == |s.files| - 1 && s.seen == |s.files| < |plan|
    && s.files[s.cur] == [] && s.offset == 0
  }

  function Skipped(plan: seq<bytes>, s: State): State
    requires s.cur < |s.files| && s.cur < |plan|
  {
    s.(files := s.files[s.cur := plan[s.cur]] + [[]], cur := s.cur + 1, seen := s.seen + 1, empty := true, discovered := true)
  }

  lemma TurnStates(plan: seq<bytes>, s: State) returns (s1: State, s2: State, s3: State, s4: State)
    requires Waiting(plan, s)
    ensures s1 == Apply(plan, false, s, Read(1)) && Follows(plan, s1)
    ensures s2 == Apply(plan, false, s1, Write(|plan[s.cur]|)) && Follows(plan, s2)
    ensures s3 == Apply(plan, false, s2, Publish) && Follows(plan, s3)
    ensures s4 == Apply(plan, false, s3, List) && Follows(plan, s4)
    ensures Apply(plan, false, s4, EndTurn) == Skipped(plan, s)
  {
    hide Flatten;
    s1 := Apply(plan, false, s, Read(1));
    assert s.consumed + [] == s.consumed;
    assert s1 == s.(phase := MayList, empty := true, discovered := false);
    s2 := Apply(plan, false, s1, Write(|plan[s.cur]|));
    assert plan[s.cur][..|plan[s.cur]|] == plan[s.cur];
    assert s2 == s1.(files := s.files[s.cur := plan[s.cur]]);
    s3 := Apply(plan, false, s2, Publish);
    assert s3 == s2.(files := s2.files + [[]]);
    s4 := Apply(plan, false, s3, List);
    assert s4 == s3.(seen := s.seen + 1, discovered := true, phase := Listed);
  }

  lemma Turn(plan: seq<bytes>, a: seq<Action>)
    requires plan != [] && Waiting(plan, Run(plan, false, a))
    ensures Run(plan, false, a + TurnActs(|plan[Run(plan, false, a).cur]|)) == Skipped(plan, Run(plan, false, a))
  {
    hide Apply, Run, Follows, Skipped;
    var s := Run(plan, false, a);
    var n := |plan[s.cur]|;
    var s1, s2, s3, s4 := TurnStates(plan, s);
    var b := a + [Read(1)];
    var c := b + [Write(n)];
    var d := c + [Publish];
    var e := d + [List];
    RunCat(plan, false, a, Read(1));
    RunCat(plan, false, b, Write(n));
    RunCat(plan, false, c, Publish);
    RunCat(plan, false, d, List);
    RunCat(plan, false, e, EndTurn);
    assert a + TurnActs(n) == e + [EndTurn];
  }

  /** One turn that reads too early, then a whole file, its successor and the catalogue. */
  function TurnActs(count: nat): seq<Action> {
    [Read(1), Write(count), Publish, List, EndTurn]
  }

  function Hasty(plan: seq<bytes>, k: nat): seq<Action>
    requires k <= |plan|
  {
    if k == 0 then [] else Hasty(plan, k - 1) + TurnActs(|plan[k - 1]|)
  }

  /** `k` complete files written and skipped, nothing consumed. */
  ghost predicate SkippedAll(plan: seq<bytes>, k: nat, s: State)
    requires k < |plan|
  {
    && s.files == plan[..k] + [[]] && s.cur == k && s.offset == 0 && s.seen == k + 1
    && s.consumed == [] && s.phase.MustRead?
  }

  lemma SkippedNext(plan: seq<bytes>, k: nat, s: State)
    requires k + 1 < |plan| && SkippedAll(plan, k, s)
    ensures Waiting(plan, s) && SkippedAll(plan, k + 1, Skipped(plan, s))
  {
    assert (plan[..k] + [[]])[k := plan[k]] == plan[..k + 1];
  }

  lemma {:induction false} HastySkips(plan: seq<bytes>, k: nat)
    requires k < |plan|
    ensures SkippedAll(plan, k, Run(plan, false, Hasty(plan, k)))
  {
    hide Apply, SkippedAll, Skipped, Waiting, Follows;
    if k == 0 {
      SkippedNone(plan);
    } else {
      var s := Run(plan, false, Hasty(plan, k - 1));
      HastySkips(plan, k - 1);
      SkippedNext(plan, k - 1, s);
      SkippedAt(plan, k - 1, s);
      Turn(plan, Hasty(plan, k - 1));
    }
  }

  lemma SkippedAt(plan: seq<bytes>, k: nat, s: State)
    requires k < |plan| && SkippedAll(plan, k, s)
    ensures s.cur == k
  {
  }

  lemma SkippedNone(plan: seq<bytes>)
    requires plan != []
    ensures SkippedAll(plan, 0, BEGIN)
  {
  }

  lemma Loses(plan: seq<bytes>, k: nat)
    requires k < |plan| - 1 && plan[k] != []
    ensures exists acts :: !Lossless(Run(plan, false, acts))
  {
    hide Run;
    HastySkips(plan, k + 1);
    SkippedLoses(plan, k, Run(plan, false, Hasty(plan, k + 1)));
  }

  lemma SkippedLoses(plan: seq<bytes>, k: nat, s: State)
    requires k < |plan| - 1 && plan[k] != [] && SkippedAll(plan, k + 1, s)
    ensures !Lossless(s)
  {
    assert s.files[..k + 1] == plan[..k] + [plan[k]];
    FlattenSnoc(plan[..k], plan[k]);
  }
}
