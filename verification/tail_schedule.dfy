/** The stop flag of the tail reader against every schedule.

    A pass lists the directory and then reads each listed file to its end; only behind a pass does the
    reader look at the flag.  The collector may append, open a new file or have the flag set at any
    point.  When has everything that was written before the flag been read at a good end? */
module TailSchedule {
  import opened Results
  import opened Bytes

  /** Where the reader is: about to list, about to read listed file `next`, or, behind the last of them,
      about to look at the flag; and how it ended. */
  datatype Place = Listing | Reading(next: nat, count: nat) | Ended(well: bool)

  /** `stop` is what had been written when the flag was set, and `at` where the reader was then. */
  datatype State = State(files: seq<bytes>, offsets: map<nat, nat>, consumed: bytes, place: Place,
                         stop: Option<seq<bytes>>, at: Option<Place>)

  const START := State([], map[], [], Listing, None, None)

  datatype Action = Append(data: bytes) | Create | Stop | Step

  function Offset(s: State, k: nat): nat {
    if k in s.offsets then s.offsets[k] else 0
  }

  function Apply(s: State, a: Action): State {
    match a
    case Append(data) =>
      if s.files == [] then s else
      var last := |s.files| - 1;
      s.(files := s.files[last := s.files[last] + data])
    case Create => s.(files := s.files + [[]])
    case Stop => if s.stop.Some? then s else s.(stop := Some(s.files), at := Some(s.place))
    case Step =>
      match s.place
      case Listing => s.(place := Reading(0, |s.files|))
      case Reading(k, n) =>
        if k < n && k < |s.files| && Offset(s, k) <= |s.files[k]| then
          s.(offsets := s.offsets[k := |s.files[k]|], consumed := s.consumed + s.files[k][Offset(s, k)..], place := Reading(k + 1, n))
        else if s.stop.Some? then s.(place := Ended(Rest(s.consumed) == []))
        else s.(place := Listing)
      case Ended(_) => s
  }

  function Run(acts: seq<Action>): State {
    if acts == [] then START else Apply(Run(acts[..|acts| - 1]), acts[|acts| - 1])
  }

  /** Of everything written before the flag was set, nothing is unread. */
  predicate ReadAll(s: State) {
    s.stop.Some? ==> forall j :: 0 <= j < |s.stop.value| ==> |s.stop.value[j]| <= Offset(s, j)
  }

  predicate EndedWell(s: State) {
    s.place == Ended(true)
  }

  // ----- a flag set before the last listing -------------------------------------------------------

  ghost predicate Sane(s: State) {
    && (forall j :: 0 <= j < |s.files| ==> Offset(s, j) <= |s.files[j]|)
    && (forall j: nat :: j >= |s.files| ==> Offset(s, j) == 0)
    && (s.place.Reading? ==> s.place.next <= s.place.count <= |s.files|)
    && (s.stop.Some? <==> s.at.Some?)
    && (s.stop.Some? ==> |s.stop.value| <= |s.files| && forall j :: 0 <= j < |s.stop.value| ==> s.stop.value[j] <= s.files[j])
  }

  /** What a flag set before a listing makes of that pass. */
  ghost predicate Covered(s: State) {
    s.stop.Some? && s.at == Some(Listing) ==>
      match s.place
      case Listing => true
      case Reading(k, n) =>
        |s.stop.value| <= n && forall j :: 0 <= j < k && j < |s.stop.value| ==> |s.stop.value[j]| <= Offset(s, j)
      case Ended(_) => ReadAll(s)
  }

  lemma StepSane(s: State, a: Action)
    requires Sane(s)
    ensures Sane(Apply(s, a))
  {
    var u := Apply(s, a);
    forall j: nat
      ensures Offset(u, j) == Offset(s, j) || (j < |s.files| == |u.files| && Offset(u, j) == |s.files[j]| && u.files == s.files)
    {
    }
    forall j | 0 <= j < |u.files|
      ensures Offset(u, j) <= |u.files[j]|
    {
      assert j < |s.files| ==> |s.files[j]| <= |u.files[j]|;
    }
    forall j: nat | j >= |u.files|
      ensures Offset(u, j) == 0
    {
    }
  }

  lemma StepCovered(s: State, a: Action)
    requires Sane(s) && Covered(s)
    ensures Covered(Apply(s, a))
  {
  }

  lemma {:induction false} AlwaysCovered(acts: seq<Action>)
    ensures Sane(Run(acts)) && Covered(Run(acts))
  {
    hide Apply, Sane, Covered;
    if acts == [] {
      StartSane();
    } else {
      var n := |acts| - 1;
      AlwaysCovered(acts[..n]);
      StepSane(Run(acts[..n]), acts[n]);
      StepCovered(Run(acts[..n]), acts[n]);
    }
  }

  lemma StartSane()
    ensures Sane(START) && Covered(START)
  {
  }

  // ----- a flag set behind it ---------------------------------------------------------------------

  function Times(a: Action, n: nat): (acts: seq<Action>)
    ensures |acts| == n
  {
    if n == 0 then [] else Times(a, n - 1) + [a]
  }

  lemma {:induction false} Creates(n: nat)
    ensures var s := Run(Times(Create, n));
            && |s.files| == n && (forall j :: 0 <= j < n ==> s.files[j] == [])
            && s == State(s.files, map[], [], Listing, None, None)
  {
    if n > 0 {
      Creates(n - 1);
      assert Times(Create, n)[..n - 1] == Times(Create, n - 1);
    }
  }

  /** Nothing has been read, and the first `n` files hold nothing. */
  predicate Unread(s: State, n: nat) {
    && n <= |s.files| && s.consumed == [] && (forall j :: 0 <= j < n ==> s.files[j] == [])
    && forall j :: j in s.offsets ==> j < n && s.offsets[j] == 0
  }

  lemma {:induction false} Reads(before: seq<Action>, k: nat, m: nat, n: nat)
    requires Run(before).place == Reading(k, n) && k + m <= n && Unread(Run(before), n)
    ensures var s, u := Run(before), Run(before + Times(Step, m));
            && u.place == Reading(k + m, n) && u.files == s.files && Unread(u, n) && u.stop == s.stop && u.at == s.at
  {
    hide Run, Unread, Apply;
    if m == 0 {
      assert before + Times(Step, 0) == before;
    } else {
      Reads(before, k, m - 1, n);
      var some := before + Times(Step, m - 1);
      assert before + Times(Step, m) == some + [Step];
      RunSnoc(some, Step);
      EmptyRead(Run(some), k + m - 1, n);
    }
  }

  lemma EmptyRead(s: State, k: nat, n: nat)
    requires s.place == Reading(k, n) && k < n && Unread(s, n)
    ensures var u := Apply(s, Step);
            u.place == Reading(k + 1, n) && u.files == s.files && Unread(u, n) && u.stop == s.stop && u.at == s.at
  {
  }

  lemma RunSnoc(acts: seq<Action>, a: Action)
    ensures Run(acts + [a]) == Apply(Run(acts), a)
  {
    assert (acts + [a])[..|acts|] == acts;
  }

  /** The reader lists `n` files, reads `k` of them, and then a new file is opened, written to, and the
      flag set: the pass goes on to its end without that file. */
  lemma LateFlag(k: nat, n: nat) returns (acts: seq<Action>)
    requires k <= n
    ensures var s := Run(acts); EndedWell(s) && s.at == Some(Reading(k, n)) && !ReadAll(s)
  {
    hide Apply, Run, Unread, ReadAll, EndedWell;
    Creates(n);
    var listed := Times(Create, n) + [Step];
    RunSnoc(Times(Create, n), Step);
    FirstListing(Run(Times(Create, n)), n);
    Reads(listed, 0, k, n);
    var some := listed + Times(Step, k);
    var s := Run(some);
    RunSnoc(some, Create);
    RunSnoc(some + [Create], Append("x"));
    RunSnoc(some + [Create] + [Append("x")], Stop);
    var flagged := some + [Create] + [Append("x")] + [Stop];
    NewFile(s, k, n);
    Reads(flagged, k, n - k, n);
    var passed := flagged + Times(Step, n - k);
    acts := passed + [Step];
    RunSnoc(passed, Step);
    FlagSeen(Run(passed), n);
  }

  lemma FirstListing(s: State, n: nat)
    requires s == State(s.files, map[], [], Listing, None, None) && |s.files| == n && forall j :: 0 <= j < n ==> s.files[j] == []
    ensures var u := Apply(s, Step); u.place == Reading(0, n) && Unread(u, n) && u.files == s.files && u.stop.None? && u.at.None?
  {
  }

  lemma NewFile(s: State, k: nat, n: nat)
    requires s.place == Reading(k, n) && Unread(s, n) && |s.files| == n && s.stop.None?
    ensures var u := Apply(Apply(Apply(s, Create), Append("x")), Stop);
            && u.place == Reading(k, n) && Unread(u, n) && |u.files| == n + 1
            && u.at == Some(Reading(k, n)) && u.stop == Some(u.files) && u.files[n] == "x"
  {
    var empty: bytes := [];
    assert empty + "x" == "x";
  }

  lemma FlagSeen(s: State, n: nat)
    requires s.place == Reading(n, n) && Unread(s, n) && s.stop.Some? && |s.stop.value| == n + 1 && s.stop.value[n] == "x"
    ensures var u := Apply(s, Step); EndedWell(u) && u.at == s.at && !ReadAll(u)
  {
    assert Terminated([]) + [] == [];
    SplitUnique([], []);
    var u := Apply(s, Step);
    assert |u.stop.value[n]| > Offset(u, n);
  }

  /** Exactly when a good end means that everything written before the flag was read, whatever the
      schedule: when the flag was set while the reader was about to list.  Set anywhere behind the listing,
      there is a schedule that ends well with bytes unread. */
  lemma FlagExact(p: Place)
    requires !p.Ended? && (p.Reading? ==> p.next <= p.count)
    ensures (forall acts :: EndedWell(Run(acts)) && Run(acts).at == Some(p) ==> ReadAll(Run(acts))) <==> p == Listing
  {
    hide Run, Apply;
    if p == Listing {
      forall acts | EndedWell(Run(acts)) && Run(acts).at == Some(p)
        ensures ReadAll(Run(acts))
      {
        AlwaysCovered(acts);
      }
    } else {
      var acts := LateFlag(p.next, p.count);
    }
  }
}
