/** The two-stream visibility check: what the collector received and what an independent process saw
    in the files, in any interleaving. */
module Visibility {
  import opened Results
  import opened Bytes
  import BatchLatency

  datatype Key = Key(route: nat, sequence: nat)

  datatype Event =
    | Received(key: Key, at: real)
    | Visible(key: Key, raw: bytes, at: real)

  datatype State = State(started: map<Key, real>, seen: map<Key, real>, next: map<nat, nat>)

  const NOTHING := State(map[], map[], map[])

  function NextOf(next: map<nat, nat>, route: nat): nat {
    if route in next then next[route] else 0
  }

  /** `received` and `visible`: one event, accepted or raising. */
  function Step(expected: map<Key, bytes>, s: State, e: Event): Result<State> {
    match e
    case Received(key, at) =>
      if key !in expected || key in s.started then Err
      else if key in s.seen && s.seen[key] < at then Err
      else Ok(s.(started := s.started[key := at]))
    case Visible(key, raw, at) =>
      if key !in expected || expected[key] != raw || key in s.seen then Err
      else if key.sequence != NextOf(s.next, key.route) then Err
      else if key in s.started && at < s.started[key] then Err
      else Ok(s.(seen := s.seen[key := at], next := s.next[key.route := key.sequence + 1]))
  }

  function Run(expected: map<Key, bytes>, events: seq<Event>): Result<State> {
    if events == [] then Ok(NOTHING) else
    var r := Run(expected, events[..|events| - 1]);
    if r.Err? then Err else Step(expected, r.value, events[|events| - 1])
  }

  // ----- the two streams --------------------------------------------------------------------------

  function Only(events: seq<Event>, visible: bool): seq<Event> {
    if events == [] then [] else
    Only(events[..|events| - 1], visible) + if events[|events| - 1].Visible? == visible then [events[|events| - 1]] else []
  }

  /** No line was seen before it was received. */
  ghost predicate Timely(started: map<Key, real>, seen: map<Key, real>) {
    forall key :: key in started && key in seen ==> started[key] <= seen[key]
  }

  /** The verdict and the final books, computed from each stream alone. */
  ghost function Together(expected: map<Key, bytes>, received: seq<Event>, visible: seq<Event>): Result<State> {
    var r, v := Run(expected, received), Run(expected, visible);
    if r.Err? || v.Err? || !Timely(r.value.started, v.value.seen) then Err
    else Ok(State(r.value.started, v.value.seen, v.value.next))
  }

  lemma {:induction false} OneStream(expected: map<Key, bytes>, events: seq<Event>, visible: bool)
    requires forall i :: 0 <= i < |events| ==> events[i].Visible? == visible
    ensures var r := Run(expected, events);
            r.Ok? ==> if visible then r.value.started == map[] else r.value.seen == map[] && r.value.next == map[]
  {
    if events != [] {
      OneStream(expected, events[..|events| - 1], visible);
    }
  }

  lemma {:induction false} OnlyIs(events: seq<Event>, visible: bool)
    ensures forall i :: 0 <= i < |Only(events, visible)| ==> Only(events, visible)[i].Visible? == visible
  {
    if events != [] {
      OnlyIs(events[..|events| - 1], visible);
    }
  }

  lemma TogetherStep(expected: map<Key, bytes>, received: seq<Event>, visible: seq<Event>, e: Event)
    requires forall i :: 0 <= i < |received| ==> received[i].Received?
    requires forall i :: 0 <= i < |visible| ==> visible[i].Visible?
    ensures var before := Together(expected, received, visible);
            var after := if e.Visible? then Together(expected, received, visible + [e]) else Together(expected, received + [e], visible);
            after == if before.Err? then Err else Step(expected, before.value, e)
  {
    OneStream(expected, received, false);
    OneStream(expected, visible, true);
    var more := (if e.Visible? then visible else received) + [e];
    assert more[..|more| - 1] == if e.Visible? then visible else received;
    var r, v := Run(expected, received), Run(expected, visible);
    if r.Ok? && v.Ok? {
      var started, seen := r.value.started, v.value.seen;
      match e
      case Received(key, at) =>
        if key in expected && key !in started {
          TimelyReceived(started, seen, key, at);
        }
      case Visible(key, raw, at) =>
        if key in expected && key !in seen {
          TimelySeen(started, seen, key, at);
        }
    }
  }

  lemma TimelyReceived(started: map<Key, real>, seen: map<Key, real>, key: Key, at: real)
    requires key !in started
    ensures Timely(started[key := at], seen) <==> Timely(started, seen) && (key in seen ==> at <= seen[key])
  {
    if Timely(started[key := at], seen) {
      assert forall k :: k in started ==> k in started[key := at] && started[key := at][k] == started[k];
    }
  }

  lemma TimelySeen(started: map<Key, real>, seen: map<Key, real>, key: Key, at: real)
    requires key !in seen
    ensures Timely(started, seen[key := at]) <==> Timely(started, seen) && (key in started ==> started[key] <= at)
  {
    if Timely(started, seen[key := at]) {
      assert forall k :: k in seen ==> k in seen[key := at] && seen[key := at][k] == seen[k];
    }
  }

  /** Acceptance and the final books depend only on the two streams. */
  lemma {:induction false} InterleavingFree(expected: map<Key, bytes>, events: seq<Event>)
    ensures Run(expected, events) == Together(expected, Only(events, false), Only(events, true))
  {
    if events != [] {
      var n := |events| - 1;
      InterleavingFree(expected, events[..n]);
      OnlyIs(events[..n], false);
      OnlyIs(events[..n], true);
      TogetherStep(expected, Only(events[..n], false), Only(events[..n], true), events[n]);
      var e := events[n];
      assert e.Visible? ==> Only(events, false) == Only(events[..n], false);
      assert e.Received? ==> Only(events, true) == Only(events[..n], true);
    }
  }

  lemma AnyOrder(expected: map<Key, bytes>, a: seq<Event>, b: seq<Event>)
    requires Only(a, false) == Only(b, false) && Only(a, true) == Only(b, true)
    ensures Run(expected, a) == Run(expected, b)
  {
    InterleavingFree(expected, a);
    InterleavingFree(expected, b);
  }

  // ----- acceptance, event by event ---------------------------------------------------------------

  function VisibleCount(events: seq<Event>, route: nat): nat {
    if events == [] then 0 else
    var last := events[|events| - 1];
    VisibleCount(events[..|events| - 1], route) + if last.Visible? && last.key.route == route then 1 else 0
  }

  /** A line is received once, and before it is seen; it is seen with its own text, in its turn on its
      route, and not before it was received. */
  ghost predicate LawfulAt(expected: map<Key, bytes>, events: seq<Event>, k: nat)
    requires k < |events|
  {
    match events[k]
    case Received(key, at) =>
      && key in expected
      && (forall i :: 0 <= i < k && events[i].key == key ==> events[i].Visible? && at <= events[i].at)
    case Visible(key, raw, at) =>
      && key in expected && expected[key] == raw && key.sequence == VisibleCount(events[..k], key.route)
      && (forall i :: 0 <= i < k && events[i].key == key ==> events[i].Received? && events[i].at <= at)
  }

  ghost predicate Lawful(expected: map<Key, bytes>, events: seq<Event>) {
    forall k :: 0 <= k < |events| ==> LawfulAt(expected, events, k)
  }

  /** The books hold what happened. */
  ghost predicate Holds(s: State, events: seq<Event>) {
    && (forall i :: 0 <= i < |events| ==>
          if events[i].Received? then events[i].key in s.started && s.started[events[i].key] == events[i].at
          else events[i].key in s.seen && s.seen[events[i].key] == events[i].at)
    && (forall key :: key in s.started ==> exists i :: 0 <= i < |events| && events[i].Received? && events[i].key == key)
    && (forall key :: key in s.seen ==> exists i :: 0 <= i < |events| && events[i].Visible? && events[i].key == key)
    && (forall key :: key in s.seen ==> key.sequence < NextOf(s.next, key.route))
    && (forall route: nat :: NextOf(s.next, route) == VisibleCount(events, route))
  }

  lemma StepLawful(expected: map<Key, bytes>, s: State, events: seq<Event>)
    requires events != [] && Holds(s, events[..|events| - 1])
    ensures Step(expected, s, events[|events| - 1]).Ok? <==> LawfulAt(expected, events, |events| - 1)
  {
    hide VisibleCount;
    var n := |events| - 1;
    assert forall i :: 0 <= i < n ==> events[..n][i] == events[i];
    var e := events[n];
    if e.key in s.started {
      var i :| 0 <= i < n && events[..n][i].Received? && events[..n][i].key == e.key;
      assert events[i].Received? && events[i].key == e.key;
    }
    if e.key in s.seen {
      var i :| 0 <= i < n && events[..n][i].Visible? && events[..n][i].key == e.key;
      assert events[i].Visible? && events[i].key == e.key;
    }
  }

  lemma StepHolds(expected: map<Key, bytes>, s: State, events: seq<Event>)
    requires events != [] && Holds(s, events[..|events| - 1]) && Step(expected, s, events[|events| - 1]).Ok?
    ensures Holds(Step(expected, s, events[|events| - 1]).value, events)
  {
    var n := |events| - 1;
    var s' := Step(expected, s, events[n]).value;
    assert forall i :: 0 <= i < n ==> events[..n][i] == events[i];
    forall key | key in s'.started
      ensures exists i :: 0 <= i < |events| && events[i].Received? && events[i].key == key
    {
      if key in s.started {
        var i :| 0 <= i < n && events[..n][i].Received? && events[..n][i].key == key;
        assert events[i].Received? && events[i].key == key;
      } else {
        assert events[n].Received? && events[n].key == key;
      }
    }
    forall key | key in s'.seen
      ensures exists i :: 0 <= i < |events| && events[i].Visible? && events[i].key == key
    {
      if key in s.seen {
        var i :| 0 <= i < n && events[..n][i].Visible? && events[..n][i].key == key;
        assert events[i].Visible? && events[i].key == key;
      } else {
        assert events[n].Visible? && events[n].key == key;
      }
    }
    forall route: nat
      ensures NextOf(s'.next, route) == VisibleCount(events, route)
    {
      assert NextOf(s.next, route) == VisibleCount(events[..n], route);
    }
    forall i | 0 <= i < |events|
      ensures if events[i].Received? then events[i].key in s'.started && s'.started[events[i].key] == events[i].at
              else events[i].key in s'.seen && s'.seen[events[i].key] == events[i].at
    {
      if i < n {
        assert events[..n][i] == events[i];
      }
    }
    forall key | key in s'.seen
      ensures key.sequence < NextOf(s'.next, key.route)
    {
      assert key in s.seen ==> key.sequence < NextOf(s.next, key.route);
    }
  }

  /** Exactly the lawful sequences of events are accepted, and the books then hold what happened. */
  lemma {:induction false} AcceptedExact(expected: map<Key, bytes>, events: seq<Event>)
    ensures Run(expected, events).Ok? <==> Lawful(expected, events)
    ensures Run(expected, events).Ok? ==> Holds(Run(expected, events).value, events)
  {
    hide Step, Holds, LawfulAt;
    if events == [] {
      assert Holds(NOTHING, []) by {
        NothingHolds();
      }
    } else {
      var n := |events| - 1;
      AcceptedExact(expected, events[..n]);
      forall k | 0 <= k < n
        ensures LawfulAt(expected, events[..n], k) <==> LawfulAt(expected, events, k)
      {
        LawfulEarlier(expected, events, n, k);
      }
      if Run(expected, events[..n]).Ok? {
        var s := Run(expected, events[..n]).value;
        StepLawful(expected, s, events);
        if Step(expected, s, events[n]).Ok? {
          StepHolds(expected, s, events);
        }
      }
    }
  }

  lemma NothingHolds()
    ensures Holds(NOTHING, [])
  {
  }

  lemma LawfulEarlier(expected: map<Key, bytes>, events: seq<Event>, n: nat, k: nat)
    requires k < n <= |events|
    ensures LawfulAt(expected, events[..n], k) <==> LawfulAt(expected, events, k)
  {
    assert events[..n][..k] == events[..k];
    assert forall i :: 0 <= i < n ==> events[..n][i] == events[i];
  }

  // ----- what acceptance means --------------------------------------------------------------------

  ghost predicate Gapless(s: State) {
    forall key: Key :: key in s.seen <==> key.sequence < NextOf(s.next, key.route)
  }

  ghost predicate Consistent(expected: map<Key, bytes>, s: State) {
    Gapless(s) && Timely(s.started, s.seen) && s.started.Keys <= expected.Keys && s.seen.Keys <= expected.Keys
  }

  lemma StepConsistent(expected: map<Key, bytes>, s: State, e: Event)
    requires Consistent(expected, s) && Step(expected, s, e).Ok?
    ensures Consistent(expected, Step(expected, s, e).value)
  {
    var s' := Step(expected, s, e).value;
    match e
    case Received(key, at) => TimelyReceived(s.started, s.seen, key, at);
    case Visible(key, raw, at) =>
      TimelySeen(s.started, s.seen, key, at);
      forall k: Key
        ensures k in s'.seen <==> k.sequence < NextOf(s'.next, k.route)
      {
      }
  }

  /** Seen sequences of a route are always `0 .. next - 1`, never before they were received. */
  lemma {:induction false} AlwaysConsistent(expected: map<Key, bytes>, events: seq<Event>)
    ensures Run(expected, events).Ok? ==> Consistent(expected, Run(expected, events).value)
  {
    if events != [] {
      var r := Run(expected, events[..|events| - 1]);
      AlwaysConsistent(expected, events[..|events| - 1]);
      if r.Ok? && Step(expected, r.value, events[|events| - 1]).Ok? {
        StepConsistent(expected, r.value, events[|events| - 1]);
      }
    }
  }

  predicate Complete(expected: map<Key, bytes>, s: State) {
    s.seen.Keys == expected.Keys && s.started.Keys == expected.Keys
  }

  /** What a route was expected to hold, in sequence order. */
  function RouteText(expected: map<Key, bytes>, route: nat, n: nat): bytes {
    if n == 0 then [] else
    RouteText(expected, route, n - 1) + if Key(route, n - 1) in expected then expected[Key(route, n - 1)] else []
  }

  /** What the observer reported of a route, in the order it was reported. */
  function RouteSeen(events: seq<Event>, route: nat): bytes {
    if events == [] then [] else
    var last := events[|events| - 1];
    RouteSeen(events[..|events| - 1], route) + if last.Visible? && last.key.route == route then last.raw else []
  }

  /** A line skipped anywhere, as by a file that vanished unread, can never be made up for: what was
      accepted of a route is, byte for byte, its expected lines in order. */
  lemma {:induction false} AcceptedInOrder(expected: map<Key, bytes>, events: seq<Event>, route: nat)
    requires Run(expected, events).Ok?
    ensures RouteSeen(events, route) == RouteText(expected, route, NextOf(Run(expected, events).value.next, route))
  {
    if events != [] {
      AcceptedInOrder(expected, events[..|events| - 1], route);
    }
  }

  /** The checks inside `report` that a complete, consistent state cannot fail. */
  ghost predicate ReportChecks(expected: map<Key, bytes>, s: State)
    requires Complete(expected, s)
  {
    && (forall key :: key in expected ==> s.seen[key] - s.started[key] >= 0.0)
    && (forall key :: key in expected ==> key.sequence < NextOf(s.next, key.route))
  }

  /** Once complete, no line has a negative latency, none is missing, the expected sequences are
      gapless, and every route was seen whole. */
  lemma CompleteCanReport(expected: map<Key, bytes>, events: seq<Event>)
    requires Run(expected, events).Ok? && Complete(expected, Run(expected, events).value)
    ensures ReportChecks(expected, Run(expected, events).value)
    ensures forall key: Key :: key in expected <==> key.sequence < NextOf(Run(expected, events).value.next, key.route)
    ensures forall route: nat :: RouteSeen(events, route) == RouteText(expected, route, NextOf(Run(expected, events).value.next, route))
  {
    AlwaysConsistent(expected, events);
    var s := Run(expected, events).value;
    forall key: Key
      ensures key in expected <==> key.sequence < NextOf(s.next, key.route)
    {
      assert key in s.seen <==> key.sequence < NextOf(s.next, key.route);
    }
    forall key | key in expected
      ensures s.seen[key] - s.started[key] >= 0.0
    {
      assert key in s.seen && key in s.started;
    }
    forall route: nat
      ensures RouteSeen(events, route) == RouteText(expected, route, NextOf(s.next, route))
    {
      AcceptedInOrder(expected, events, route);
    }
  }

  // ----- latencies --------------------------------------------------------------------------------

  /** Milliseconds from reception to visibility. */
  function Latency(s: State, key: Key): real
    requires key in s.seen && key in s.started
  {
    (s.seen[key] - s.started[key]) * 1000.0
  }

  /** Those of the lines whose latency passes a test. */
  function Passing(s: State, keys: set<Key>, p: BatchLatency.Test): set<Key>
    requires keys <= s.seen.Keys && keys <= s.started.Keys
  {
    set key | key in keys && BatchLatency.Holds(p, Latency(s, key))
  }

  /** The list of latencies counts as the lines do. */
  ghost predicate Counts(s: State, keys: set<Key>, values: seq<real>)
    requires keys <= s.seen.Keys && keys <= s.started.Keys
  {
    forall p: BatchLatency.Test :: BatchLatency.Count(values, p) == |Passing(s, keys, p)|
  }

  lemma CountsSnoc(s: State, keys: set<Key>, values: seq<real>, key: Key)
    requires keys <= s.seen.Keys && keys <= s.started.Keys && key in s.seen && key in s.started && key !in keys
    requires Counts(s, keys, values)
    ensures Counts(s, keys + {key}, values + [Latency(s, key)])
  {
    hide BatchLatency.Holds, Latency;
    var more := values + [Latency(s, key)];
    assert more[..|values|] == values;
    forall p: BatchLatency.Test
      ensures BatchLatency.Count(more, p) == |Passing(s, keys + {key}, p)|
    {
      var now := Passing(s, keys + {key}, p);
      if BatchLatency.Holds(p, Latency(s, key)) {
        assert now == Passing(s, keys, p) + {key};
      } else {
        assert now == Passing(s, keys, p);
      }
    }
  }

  /** `_percentile`'s rank for a fraction given in hundredths. */
  function Rank(n: nat, hundredths: nat): (r: nat)
    requires n > 0 && 0 < hundredths <= 100
    ensures 1 <= r <= n
  {
    RankBounds(n, hundredths);
    (hundredths * n + 99) / 100
  }

  lemma RankBounds(n: nat, hundredths: nat)
    requires n > 0 && 0 < hundredths <= 100
    ensures 1 <= (hundredths * n + 99) / 100 <= n
  {
    assert hundredths * n >= 1;
    assert hundredths * n <= 100 * n;
  }

  /** The lines seen at most so many milliseconds after they were received, and those seen sooner. */
  function SeenWithin(s: State, keys: set<Key>, ms: real): set<Key>
    requires keys <= s.seen.Keys && keys <= s.started.Keys
  {
    set key | key in keys && s.seen[key] <= s.started[key] + ms / 1000.0
  }

  function SeenSooner(s: State, keys: set<Key>, ms: real): set<Key>
    requires keys <= s.seen.Keys && keys <= s.started.Keys
  {
    set key | key in keys && s.seen[key] < s.started[key] + ms / 1000.0
  }

  /** The value is the nearest-rank percentile of the lines: that share of them at least was seen within so
      many milliseconds, and less than that share sooner. */
  ghost predicate IsPercentile(s: State, keys: set<Key>, hundredths: nat, value: real)
    requires keys <= s.seen.Keys && keys <= s.started.Keys
  {
    100 * |SeenSooner(s, keys, value)| < hundredths * |keys| <= 100 * |SeenWithin(s, keys, value)|
  }

  lemma PassingSeen(s: State, keys: set<Key>, ms: real)
    requires keys <= s.seen.Keys && keys <= s.started.Keys
    ensures Passing(s, keys, BatchLatency.AtMost(ms)) == SeenWithin(s, keys, ms)
    ensures Passing(s, keys, BatchLatency.Below(ms)) == SeenSooner(s, keys, ms)
  {
  }

  lemma RankShare(n: nat, hundredths: nat, below: nat, atMost: nat)
    requires n > 0 && 0 < hundredths <= 100 && below < Rank(n, hundredths) <= atMost
    ensures 100 * below < hundredths * n <= 100 * atMost
  {
  }

  lemma PercentileCounts(s: State, keys: set<Key>, values: seq<real>, hundredths: nat)
    requires keys <= s.seen.Keys && keys <= s.started.Keys && keys != {} && 0 < hundredths <= 100
    requires Counts(s, keys, values) && |values| == |keys|
    ensures IsPercentile(s, keys, hundredths, BatchLatency.Sort(values)[Rank(|values|, hundredths) - 1])
  {
    hide BatchLatency.Count, BatchLatency.Sort, Passing, Rank, SeenWithin, SeenSooner;
    var r := Rank(|values|, hundredths);
    BatchLatency.RankCounts(values, r);
    var v := BatchLatency.Sort(values)[r - 1];
    assert BatchLatency.Count(values, BatchLatency.Below(v)) == |Passing(s, keys, BatchLatency.Below(v))|;
    assert BatchLatency.Count(values, BatchLatency.AtMost(v)) == |Passing(s, keys, BatchLatency.AtMost(v))|;
    PassingSeen(s, keys, v);
    RankShare(|keys|, hundredths, |SeenSooner(s, keys, v)|, |SeenWithin(s, keys, v)|);
  }

  /** The latencies of all lines. */
  method Latencies(s: State, keys: set<Key>) returns (values: seq<real>)
    requires keys <= s.seen.Keys && keys <= s.started.Keys
    ensures Counts(s, keys, values) && |values| == |keys|
  {
    hide Counts, Passing, Latency;
    var left := keys;
    values := [];
    NoLatencies(s);
    assert keys - left == {};
    while left != {}
      invariant left <= keys && Counts(s, keys - left, values) && |values| == |keys - left|
      decreases |left|
    {
      var key :| key in left;
      CountsSnoc(s, keys - left, values, key);
      assert keys - (left - {key}) == (keys - left) + {key};
      values := values + [Latency(s, key)];
      left := left - {key};
    }
    assert keys - left == keys;
  }

  datatype Report = Report(samples: nat, p50Ms: real, p95Ms: real, p99Ms: real, maxMs: real, digests: map<nat, bytes>)

  // ----- the program text -------------------------------------------------------------------------

  class Aggregator {
    const expected: map<Key, bytes>
    var started: map<Key, real>
    var seen: map<Key, real>
    var nextSequence: map<nat, nat>
    ghost var events: seq<Event>

    ghost predicate Valid()
      reads this
    {
      Run(expected, events) == Ok(Now())
    }

    function Now(): State
      reads this
    {
      State(started, seen, nextSequence)
    }

    constructor (expected: map<Key, bytes>)
      ensures Valid() && this.expected == expected && Now() == NOTHING && events == []
    {
      this.expected := expected;
      started, seen, nextSequence, events := map[], map[], map[], [];
    }

    method Receive(route: nat, sequence: nat, at: real) returns (ok: bool)
      requires Valid()
      modifies this
      ensures ok == Run(expected, old(events) + [Received(Key(route, sequence), at)]).Ok?
      ensures ok ==> Valid() && events == old(events) + [Received(Key(route, sequence), at)]
    {
      var key := Key(route, sequence);
      ghost var next := events + [Received(key, at)];
      assert next[..|events|] == events;
      if key !in expected || key in started {
        return false;
      }
      started := started[key := at];
      if key in seen && seen[key] < at {
        return false;
      }
      events := next;
      return true;
    }

    method See(route: nat, sequence: nat, raw: bytes, at: real) returns (ok: bool)
      requires Valid()
      modifies this
      ensures ok == Run(expected, old(events) + [Visible(Key(route, sequence), raw, at)]).Ok?
      ensures ok ==> Valid() && events == old(events) + [Visible(Key(route, sequence), raw, at)]
    {
      var key := Key(route, sequence);
      ghost var next := events + [Visible(key, raw, at)];
      assert next[..|events|] == events;
      if key !in expected || expected[key] != raw || key in seen {
        return false;
      }
      if sequence != NextOf(nextSequence, route) {
        return false;
      }
      if key in started && at < started[key] {
        return false;
      }
      nextSequence := nextSequence[route := NextOf(nextSequence, route) + 1];
      seen := seen[key := at];
      events := next;
      return true;
    }

    /** The digest of one route: what was seen of it, in order. */
    method DigestOf(route: nat) returns (digest: bytes)
      requires Valid()
      ensures digest == RouteSeen(events, route)
    {
      hide Run, RouteSeen, RouteText, NextOf;
      AcceptedInOrder(expected, events, route);
      return RouteText(expected, route, NextOf(nextSequence, route));
    }

    /** The per-route digests of a complete state. */
    method Digests() returns (digests: map<nat, bytes>)
      requires Valid() && Complete(expected, Now())
      ensures digests.Keys == RoutesOf(expected.Keys)
      ensures forall route :: route in digests ==> digests[route] == RouteSeen(events, route)
    {
      hide Run, RouteSeen, RouteText, RoutesOf, Complete, NextOf;
      var keys := expected.Keys;
      digests := map[];
      NoRoutes(keys);
      while keys != {}
        invariant keys <= expected.Keys && digests.Keys == RoutesOf(expected.Keys - keys)
        invariant forall route :: route in digests ==> digests[route] == RouteSeen(events, route)
        decreases |keys|
      {
        var key :| key in keys;
        RoutesGrow(expected.Keys, keys, key);
        var digest := DigestOf(key.route);
        digests := digests[key.route := digest];
        keys := keys - {key};
      }
      assert expected.Keys - keys == expected.Keys;
    }

    lemma NeverFires()
      requires Valid() && Complete(expected, Now())
      ensures forall key :: key in expected.Keys ==> seen[key] - started[key] >= 0.0 && key.sequence < NextOf(nextSequence, key.route)
    {
      CompleteCanReport(expected, events);
    }

    /** `report`.  Nothing but incompleteness, or an empty expectation, can make it fail; the percentiles
        are those of the lines, the maximum the hundredth. */
    method MakeReport() returns (r: Result<Report>)
      requires Valid()
      ensures r.Ok? <==> Complete(expected, Now()) && expected.Keys != {}
      ensures r.Ok? ==>
                && r.value.samples == |expected.Keys|
                && IsPercentile(Now(), expected.Keys, 50, r.value.p50Ms) && IsPercentile(Now(), expected.Keys, 95, r.value.p95Ms)
                && IsPercentile(Now(), expected.Keys, 99, r.value.p99Ms) && IsPercentile(Now(), expected.Keys, 100, r.value.maxMs)
                && r.value.digests.Keys == RoutesOf(expected.Keys)
                && (forall route :: route in r.value.digests ==> r.value.digests[route] == RouteSeen(events, route))
    {
      hide Run, RouteSeen, RouteText, RoutesOf, Counts, IsPercentile, BatchLatency.Sort, Rank;
      if seen.Keys != expected.Keys || started.Keys != expected.Keys {
        return Err;
      }
      var negative := exists key :: key in expected.Keys && seen[key] - started[key] < 0.0;
      var missing := exists key :: key in expected.Keys && key.sequence >= NextOf(nextSequence, key.route);
      assert !negative && !missing by {
        NeverFires();
      }
      if negative || missing || expected.Keys == {} { // with no latency there is no percentile
        return Err;
      }
      var digests := Digests();
      var values := Latencies(Now(), expected.Keys);
      var n := |values|;
      PercentileCounts(Now(), expected.Keys, values, 50);
      PercentileCounts(Now(), expected.Keys, values, 95);
      PercentileCounts(Now(), expected.Keys, values, 99);
      PercentileCounts(Now(), expected.Keys, values, 100);
      var latencies := BatchLatency.Sort(values);
      assert Rank(n, 100) == n by {
        LastRank(n);
      }
      return Ok(Report(n, latencies[Rank(n, 50) - 1], latencies[Rank(n, 95) - 1], latencies[Rank(n, 99) - 1],
                       latencies[n - 1], digests));
    }
  }

  lemma NoLatencies(s: State)
    ensures Counts(s, {}, [])
  {
    forall p: BatchLatency.Test
      ensures Passing(s, {}, p) == {}
    {
    }
  }

  lemma LastRank(n: nat)
    requires n > 0
    ensures Rank(n, 100) == n
  {
  }

  lemma NoRoutes(keys: set<Key>)
    ensures RoutesOf(keys - keys) == {}
  {
  }

  function RoutesOf(keys: set<Key>): set<nat> {
    set key | key in keys :: key.route
  }

  lemma RoutesGrow(all: set<Key>, left: set<Key>, key: Key)
    requires key in left && left <= all
    ensures RoutesOf(all - (left - {key})) == RoutesOf(all - left) + {key.route}
  {
    assert all - (left - {key}) == (all - left) + {key};
  }
}
