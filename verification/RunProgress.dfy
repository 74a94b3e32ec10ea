/**
  The bounded activity history of the browser: a window of recent events plus
  the stage markers of the runs seen in it, and the question it must still
  answer like the full history: which stage did a run start last?
 */
module RunProgress {
  import opened Wrappers
  import opened RunStates

  datatype Stage = Plan | Collect | Synthesize | Review

  /** marker holds the stage of a stage.started event; an event without a run has run "". */
  datatype Event = Event(identity: string, sequence: int, run: string, marker: Option<Stage>)

  datatype Key = Key(run: string, stage: Stage)

  // The specification of retainRunEventHistory

  /** First occurrences only. */
  function Distinct(events: seq<Event>, seen: set<string>): seq<Event>
    decreases events
  {
    if events == [] then []
    else if events[0].identity in seen then Distinct(events[1..], seen)
    else [events[0]] + Distinct(events[1..], seen + {events[0].identity})
  }

  function WindowSize(limit: int): (n: nat)
    ensures n >= 1
  {
    if limit < 1 then 1 else limit
  }

  function Recent(candidates: seq<Event>, limit: int): seq<Event> {
    if |candidates| <= WindowSize(limit) then candidates else candidates[..WindowSize(limit)]
  }

  /** The window holds at least one event, and otherwise as many as the limit says. */
  lemma WindowIsLimited(candidates: seq<Event>, limit: int)
    ensures var recent := Recent(candidates, limit);
            && recent <= candidates
            && |recent| == if limit <= 1 then (if candidates == [] then 0 else 1)
                           else if |candidates| <= limit then |candidates| else limit
  {
  }

  function RunsOf(events: seq<Event>): set<string> {
    set e | e in events && e.run != "" :: e.run
  }

  function IdentitiesOf(events: seq<Event>): set<string> {
    set e | e in events :: e.identity
  }

  predicate IsMarker(e: Event, runs: set<string>) {
    e.marker.Some? && e.run != "" && e.run in runs
  }

  function KeyOf(e: Event): Key
    requires e.marker.Some?
  {
    Key(e.run, e.marker.value)
  }

  /** The newest marker of each run in the window and each stage, where it is not in the window itself. */
  function Preserved(candidates: seq<Event>, runs: set<string>, identities: set<string>, keys: set<Key>): seq<Event>
    decreases candidates
  {
    if candidates == [] then []
    else
      var e := candidates[0];
      if !IsMarker(e, runs) || KeyOf(e) in keys then Preserved(candidates[1..], runs, identities, keys)
      else
        var more := Preserved(candidates[1..], runs, identities, keys + {KeyOf(e)});
        if e.identity in identities then more else [e] + more
  }

  function RetainedOf(candidates: seq<Event>, limit: int): seq<Event> {
    var recent := Recent(candidates, limit);
    recent + Preserved(candidates, RunsOf(recent), IdentitiesOf(recent), {})
  }

  function Retained(events: seq<Event>, limit: int): seq<Event> {
    RetainedOf(Distinct(events, {}), limit)
  }

  method DistinctEvents(events: seq<Event>) returns (candidates: seq<Event>)
    ensures candidates == Distinct(events, {})
  {
    var seen: set<string> := {};
    candidates := [];
    for i := 0 to |events|
      invariant candidates + Distinct(events[i..], seen) == Distinct(events, {})
    {
      assert events[i..][1..] == events[i + 1..];
      if events[i].identity !in seen {
        seen := seen + {events[i].identity};
        candidates := candidates + [events[i]];
      }
    }
  }

  method RetainRunEventHistory(event: Event, previous: seq<Event>, recentLimit: int) returns (retained: seq<Event>)
    ensures retained == Retained([event] + previous, recentLimit)
  {
    var candidates := DistinctEvents([event] + previous);
    var size := WindowSize(recentLimit);
    var recent := candidates[..(if |candidates| < size then |candidates| else size)];
    var runs, identities := RunsOf(recent), IdentitiesOf(recent);
    var keys: set<Key> := {};
    var preserved: seq<Event> := [];
    for i := 0 to |candidates|
      invariant preserved + Preserved(candidates[i..], runs, identities, keys) ==
          Preserved(candidates, runs, identities, {})
    {
      var candidate := candidates[i];
      assert candidates[i..][1..] == candidates[i + 1..];
      if !IsMarker(candidate, runs) || KeyOf(candidate) in keys {
        continue;
      }
      keys := keys + {KeyOf(candidate)};
      if candidate.identity !in identities {
        preserved := preserved + [candidate];
      }
    }
    assert candidates[|candidates|..] == [] && recent == Recent(candidates, recentLimit);
    retained := recent + preserved;
  }

  // The question

  predicate MarksRun(e: Event, run: string) {
    e.run == run && e.marker.Some?
  }

  /** The stage of the run's marker with the greatest sequence, the first of them in the list. */
  method LatestStartedStage(run: string, events: seq<Event>) returns (stage: Option<Stage>)
    ensures stage.None? <==> forall e <- events :: !MarksRun(e, run)
    ensures stage.Some? ==> exists i :: 0 <= i < |events| && IsLatest(events, run, i) && events[i].marker == stage
    ensures stage == LatestStage(run, events)
  {
    var latest: Option<Event> := None;
    for i := 0 to |events|
      invariant latest == Latest(run, events[..i])
    {
      var e := events[i];
      assert events[..i + 1][..i] == events[..i];
      if e.run == run && e.marker.Some? && (latest.None? || e.sequence > latest.value.sequence) {
        latest := Some(e);
      }
    }
    assert events[..|events|] == events;
    LatestIsLatest(run, events);
    stage := if latest.Some? then latest.value.marker else None;
  }

  lemma {:induction false} LatestIsLatest(run: string, events: seq<Event>)
    ensures Latest(run, events).None? <==> forall e <- events :: !MarksRun(e, run)
    ensures Latest(run, events).Some? ==>
              exists i :: 0 <= i < |events| && IsLatest(events, run, i) && events[i] == Latest(run, events).value
    decreases |events|
  {
    if events != [] {
      var n := |events| - 1;
      var init, e := events[..n], events[n];
      LatestIsLatest(run, init);
      assert events == init + [e];
      if Latest(run, events) == Some(e) && MarksRun(e, run)
        && (Latest(run, init).None? || e.sequence > Latest(run, init).value.sequence) {
        assert IsLatest(events, run, n);
      } else if Latest(run, init).Some? {
        var k :| 0 <= k < n && IsLatest(init, run, k) && init[k] == Latest(run, init).value;
        assert IsLatest(events, run, k);
      }
    }
  }

  predicate IsLatest(events: seq<Event>, run: string, i: nat) {
    && i < |events| && MarksRun(events[i], run)
    && (forall k | 0 <= k < |events| && MarksRun(events[k], run) :: events[k].sequence <= events[i].sequence)
    && (forall k | 0 <= k < i && MarksRun(events[k], run) :: events[k].sequence < events[i].sequence)
  }

  function Latest(run: string, events: seq<Event>): Option<Event> {
    if events == [] then None
    else
      var before, e := Latest(run, events[..|events| - 1]), events[|events| - 1];
      if MarksRun(e, run) && (before.None? || e.sequence > before.value.sequence) then Some(e) else before
  }

  function LatestStage(run: string, events: seq<Event>): Option<Stage> {
    var latest := Latest(run, events);
    if latest.Some? then latest.value.marker else None
  }

  // Newest-first histories

  predicate NewestFirst(events: seq<Event>) {
    && (forall i, j | 0 <= i < j < |events| :: events[i].sequence > events[j].sequence)
    && (forall i, j | 0 <= i < j < |events| :: events[i].identity != events[j].identity)
  }

  lemma {:induction false} DistinctAlready(events: seq<Event>, seen: set<string>)
    requires NewestFirst(events) && forall e <- events :: e.identity !in seen
    ensures Distinct(events, seen) == events
    decreases events
  {
    if events != [] {
      assert events[0].identity !in seen;
      forall e <- events[1..] ensures e.identity !in seen + {events[0].identity} {
        var j :| 0 <= j < |events[1..]| && events[1..][j] == e;
        assert events[j + 1] == e;
      }
      DistinctAlready(events[1..], seen + {events[0].identity});
    }
  }

  /** Newest first, the newest marker of a run is the first one. */
  function FirstMarker(run: string, events: seq<Event>): Option<Event>
    decreases events
  {
    if events == [] then None
    else if MarksRun(events[0], run) then Some(events[0])
    else FirstMarker(run, events[1..])
  }

  lemma {:induction false} FirstMarkerIn(run: string, events: seq<Event>)
    ensures FirstMarker(run, events).Some? ==>
              FirstMarker(run, events).value in events && MarksRun(FirstMarker(run, events).value, run)
    ensures FirstMarker(run, events).None? <==> forall e <- events :: !MarksRun(e, run)
    decreases events
  {
    if events != [] {
      FirstMarkerIn(run, events[1..]);
      assert forall e <- events :: e == events[0] || e in events[1..];
      assert forall e <- events[1..] :: e in events;
    }
  }

  lemma {:induction false} FirstMarkerAppend(run: string, a: seq<Event>, b: seq<Event>)
    ensures FirstMarker(run, a + b) == if FirstMarker(run, a).Some? then FirstMarker(run, a) else FirstMarker(run, b)
    decreases a
  {
    if a == [] {
      assert a + b == b;
    } else {
      assert (a + b)[1..] == a[1..] + b;
      FirstMarkerAppend(run, a[1..], b);
    }
  }

  lemma NewestFirstInit(events: seq<Event>)
    requires NewestFirst(events) && events != []
    ensures var init, e := events[..|events| - 1], events[|events| - 1];
            NewestFirst(init) && events == init + [e] && forall f <- init :: f.sequence > e.sequence
  {
  }

  lemma {:induction false} LatestIsFirst(run: string, events: seq<Event>)
    requires NewestFirst(events)
    ensures Latest(run, events) == FirstMarker(run, events)
    decreases |events|
  {
    if events != [] {
      hide NewestFirst;
      var init, e := events[..|events| - 1], events[|events| - 1];
      NewestFirstInit(events);
      LatestIsFirst(run, init);
      FirstMarkerAppend(run, init, [e]);
      FirstMarkerIn(run, init);
    }
  }

  // What is preserved

  lemma {:induction false} PreservedFrom(candidates: seq<Event>, runs: set<string>, identities: set<string>,
    keys: set<Key>)
    ensures forall e <- Preserved(candidates, runs, identities, keys) ::
              e in candidates && IsMarker(e, runs) && e.identity !in identities
    decreases candidates
  {
    if candidates != [] {
      var e := candidates[0];
      PreservedFrom(candidates[1..], runs, identities, keys);
      if IsMarker(e, runs) {
        PreservedFrom(candidates[1..], runs, identities, keys + {KeyOf(e)});
      }
    }
  }

  lemma NewestFirstCons(e: Event, events: seq<Event>)
    requires NewestFirst(events) && forall f <- events :: f.sequence < e.sequence && f.identity != e.identity
    ensures NewestFirst([e] + events)
  {
  }

  lemma NewestFirstTail(events: seq<Event>)
    requires NewestFirst(events) && events != []
    ensures NewestFirst(events[1..])
    ensures forall f <- events[1..] :: f.sequence < events[0].sequence && f.identity != events[0].identity
  {
  }

  lemma {:induction false} PreservedNewestFirst(candidates: seq<Event>, runs: set<string>, identities: set<string>,
    keys: set<Key>)
    requires NewestFirst(candidates)
    ensures NewestFirst(Preserved(candidates, runs, identities, keys))
    decreases candidates
  {
    hide NewestFirst;
    if candidates == [] {
      NewestFirstEmpty();
    } else {
      var e := candidates[0];
      NewestFirstTail(candidates);
      PreservedNewestFirst(candidates[1..], runs, identities, keys);
      if IsMarker(e, runs) {
        PreservedNewestFirst(candidates[1..], runs, identities, keys + {KeyOf(e)});
        PreservedFrom(candidates[1..], runs, identities, keys + {KeyOf(e)});
        NewestFirstCons(e, Preserved(candidates[1..], runs, identities, keys + {KeyOf(e)}));
      }
    }
  }

  lemma NewestFirstEmpty()
    ensures NewestFirst([])
  {
  }

  /** The newest marker of a run in the window survives even where it left the window. */
  lemma {:induction false} PreservedKeepsFirst(candidates: seq<Event>, runs: set<string>, identities: set<string>,
    keys: set<Key>, run: string)
    requires run != "" && run in runs && (forall stage :: Key(run, stage) !in keys)
    requires FirstMarker(run, candidates).Some? && FirstMarker(run, candidates).value.identity !in identities
    ensures FirstMarker(run, Preserved(candidates, runs, identities, keys)) == FirstMarker(run, candidates)
    decreases candidates
  {
    var e := candidates[0];
    if !MarksRun(e, run) {
      PreservedKeepsFirst(candidates[1..], runs, identities, keys, run);
      if IsMarker(e, runs) {
        PreservedKeepsFirst(candidates[1..], runs, identities, keys + {KeyOf(e)}, run);
      }
    }
  }

  // The size of what is preserved

  function KeysOf(runs: set<string>): set<Key> {
    set run, stage | run in runs && stage in {Plan, Collect, Synthesize, Review} :: Key(run, stage)
  }

  lemma StageIsOne(stage: Stage)
    ensures stage in {Plan, Collect, Synthesize, Review}
  {
    match stage
    case Plan =>
    case Collect =>
    case Synthesize =>
    case Review =>
  }

  lemma {:induction false} KeysCount(runs: set<string>)
    ensures |KeysOf(runs)| == 4 * |runs|
    decreases runs
  {
    if runs == {} {
      assert KeysOf(runs) == {};
    } else {
      var run :| run in runs;
      KeysCount(runs - {run});
      var four := {Key(run, Plan), Key(run, Collect), Key(run, Synthesize), Key(run, Review)};
      assert KeysOf(runs) == KeysOf(runs - {run}) + four;
      assert KeysOf(runs - {run}) !! four;
      assert |four| == 4;
    }
  }

  lemma {:induction false} PreservedCount(candidates: seq<Event>, runs: set<string>, identities: set<string>,
    keys: set<Key>)
    requires keys <= KeysOf(runs)
    ensures |Preserved(candidates, runs, identities, keys)| <= 4 * |runs| - |keys|
    decreases candidates
  {
    KeysCount(runs);
    if candidates == [] {
      Smaller(keys, KeysOf(runs));
    } else {
      var e := candidates[0];
      if !IsMarker(e, runs) || KeyOf(e) in keys {
        PreservedCount(candidates[1..], runs, identities, keys);
      } else {
        StageIsOne(e.marker.value);
        assert KeyOf(e) in KeysOf(runs);
        PreservedCount(candidates[1..], runs, identities, keys + {KeyOf(e)});
      }
    }
  }

  lemma Smaller(a: set<Key>, b: set<Key>)
    requires a <= b
    ensures |a| <= |b|
  {
    assert b == a + (b - a);
  }

  // Main results

  lemma RecentIsPrefix(candidates: seq<Event>, limit: int) returns (rest: seq<Event>)
    ensures candidates == Recent(candidates, limit) + rest
  {
    rest := candidates[|Recent(candidates, limit)|..];
  }

  lemma WindowIdentities(candidates: seq<Event>, limit: int)
    ensures forall i | 0 <= i < |Recent(candidates, limit)| ::
        candidates[i].identity in IdentitiesOf(Recent(candidates, limit))
  {
    assert forall i | 0 <= i < |Recent(candidates, limit)| :: candidates[i] == Recent(candidates, limit)[i];
  }

  lemma NotInWindow(candidates: seq<Event>, limit: int, e: Event)
    requires NewestFirst(candidates) && e in candidates && e.identity !in IdentitiesOf(Recent(candidates, limit))
    ensures forall f <- Recent(candidates, limit) :: e.sequence < f.sequence && e.identity != f.identity
  {
    var recent := Recent(candidates, limit);
    var i :| 0 <= i < |candidates| && candidates[i] == e;
    WindowIdentities(candidates, limit);
    forall f <- recent ensures e.sequence < f.sequence && e.identity != f.identity {
      var j :| 0 <= j < |recent| && recent[j] == f;
      assert candidates[j] == f && j < i;
    }
  }

  /**
    From a newest-first history, what is retained is again newest first and
    without duplicates; it starts with the whole window, takes the rest from the
    history, and is no longer than the window and four events per run in it.
   */
  lemma RetainedIsBounded(events: seq<Event>, limit: int)
    requires NewestFirst(events)
    ensures var retained, recent := Retained(events, limit), Recent(events, limit);
            && NewestFirst(retained) && recent <= retained && (forall e <- retained :: e in events)
            && |retained| <= WindowSize(limit) + 4 * |RunsOf(recent)|
  {
    DistinctAlready(events, {});
    WindowIsNewestFirst(events, limit);
    var recent := Recent(events, limit);
    var runs, identities := RunsOf(recent), IdentitiesOf(recent);
    var preserved := Preserved(events, runs, identities, {});
    hide Distinct, Preserved, NewestFirst, Recent, RunsOf, IsMarker, WindowSize;
    PreservedFrom(events, runs, identities, {});
    PreservedNewestFirst(events, runs, identities, {});
    PreservedCount(events, runs, identities, {});
    forall e <- preserved ensures forall f <- recent :: e.sequence < f.sequence && e.identity != f.identity {
      NotInWindow(events, limit, e);
    }
    JoinedNewestFirst(recent, preserved);
  }

  lemma WindowIsNewestFirst(events: seq<Event>, limit: int)
    requires NewestFirst(events)
    ensures NewestFirst(Recent(events, limit)) && |Recent(events, limit)| <= WindowSize(limit)
    ensures forall e <- Recent(events, limit) :: e in events
  {
  }

  lemma JoinedNewestFirst(a: seq<Event>, b: seq<Event>)
    requires NewestFirst(a) && NewestFirst(b)
    requires forall e <- b, f <- a :: e.sequence < f.sequence && e.identity != f.identity
    ensures NewestFirst(a + b)
  {
  }

  /** One arrival: a run in the window keeps its newest marker, and a run outside it loses all its events. */
  lemma RetainedAnswers(events: seq<Event>, limit: int, run: string)
    requires NewestFirst(events) && run != ""
    ensures var retained := Retained(events, limit);
            if run in RunsOf(Recent(events, limit)) then FirstMarker(run, retained) == FirstMarker(run, events)
            else FirstMarker(run, retained) == None
  {
    DistinctAlready(events, {});
    var recent := Recent(events, limit);
    var rest := RecentIsPrefix(events, limit);
    var runs, identities := RunsOf(recent), IdentitiesOf(recent);
    var preserved := Preserved(events, runs, identities, {});
    FirstMarkerAppend(run, recent, preserved);
    FirstMarkerAppend(run, recent, rest);
    FirstMarkerIn(run, recent);
    FirstMarkerIn(run, preserved);
    FirstMarkerIn(run, rest);
    if run !in runs {
      PreservedFrom(events, runs, identities, {});
    } else if FirstMarker(run, recent).None? && FirstMarker(run, rest).Some? {
      var i :| 0 <= i < |rest| && rest[i] == FirstMarker(run, rest).value;
      OutsideWindow(events, limit, |recent| + i);
      PreservedKeepsFirst(events, runs, identities, {}, run);
    } else if FirstMarker(run, recent).None? {
      PreservedFrom(events, runs, identities, {});
      NoMarkers(run, recent, rest, preserved);
    }
  }

  lemma OutsideWindow(events: seq<Event>, limit: int, i: nat)
    requires NewestFirst(events) && |Recent(events, limit)| <= i < |events|
    ensures events[i].identity !in IdentitiesOf(Recent(events, limit))
  {
    forall f <- Recent(events, limit) ensures f.identity != events[i].identity {
      var j :| 0 <= j < |Recent(events, limit)| && Recent(events, limit)[j] == f;
      assert events[j] == f;
    }
  }

  lemma NoMarkers(run: string, recent: seq<Event>, rest: seq<Event>, preserved: seq<Event>)
    requires FirstMarker(run, recent).None? && FirstMarker(run, rest).None?
    requires forall e <- preserved :: e in recent + rest
    ensures FirstMarker(run, preserved) == None
  {
    FirstMarkerIn(run, recent);
    FirstMarkerIn(run, rest);
    FirstMarkerIn(run, preserved);
  }

  // All arrivals

  /** Arrivals with increasing sequences, each its own event. */
  predicate Arriving(arrivals: seq<Event>) {
    && (forall i, j | 0 <= i < j < |arrivals| :: arrivals[i].sequence < arrivals[j].sequence)
    && (forall i, j | 0 <= i < j < |arrivals| :: arrivals[i].identity != arrivals[j].identity)
  }

  /** The bounded history after these arrivals, and what it would be without a bound. */
  function Kept(arrivals: seq<Event>, limit: int): seq<Event>
    decreases |arrivals|, 1
  {
    if arrivals == [] then [] else Retained(Candidates(arrivals, limit), limit)
  }

  function Candidates(arrivals: seq<Event>, limit: int): seq<Event>
    requires arrivals != []
    decreases |arrivals|, 0
  {
    [arrivals[|arrivals| - 1]] + Kept(arrivals[..|arrivals| - 1], limit)
  }

  function Full(arrivals: seq<Event>): seq<Event> {
    if arrivals == [] then [] else [arrivals[|arrivals| - 1]] + Full(arrivals[..|arrivals| - 1])
  }

  /** One of the last arrivals, as many as the window holds, belongs to the run. */
  predicate InWindow(arrivals: seq<Event>, limit: int, run: string) {
    exists i | 0 <= i < |arrivals| && |arrivals| - WindowSize(limit) <= i :: arrivals[i].run == run
  }

  lemma {:induction false} FullNewestFirst(arrivals: seq<Event>)
    requires Arriving(arrivals)
    ensures NewestFirst(Full(arrivals)) && forall e <- Full(arrivals) :: e in arrivals
  {
    if arrivals != [] {
      hide NewestFirst, Arriving;
      ArrivingInit(arrivals);
      FullNewestFirst(arrivals[..|arrivals| - 1]);
      NewestFirstCons(arrivals[|arrivals| - 1], Full(arrivals[..|arrivals| - 1]));
    } else {
      NewestFirstEmpty();
    }
  }

  lemma ArrivingInit(arrivals: seq<Event>)
    requires Arriving(arrivals) && arrivals != []
    ensures var init, e := arrivals[..|arrivals| - 1], arrivals[|arrivals| - 1];
            && Arriving(init) && (forall f <- init :: f in arrivals)
            && forall f <- init :: f.sequence < e.sequence && f.identity != e.identity
  {
  }

  lemma {:induction false} KeptNewestFirst(arrivals: seq<Event>, limit: int)
    requires Arriving(arrivals)
    ensures NewestFirst(Kept(arrivals, limit)) && forall e <- Kept(arrivals, limit) :: e in arrivals
    ensures arrivals != [] ==> NewestFirst(Candidates(arrivals, limit))
    decreases |arrivals|
  {
    hide NewestFirst, Arriving, Retained;
    if arrivals != [] {
      ArrivingInit(arrivals);
      KeptNewestFirst(arrivals[..|arrivals| - 1], limit);
      NewestFirstCons(arrivals[|arrivals| - 1], Kept(arrivals[..|arrivals| - 1], limit));
      RetainedIsBounded(Candidates(arrivals, limit), limit);
    } else {
      NewestFirstEmpty();
    }
  }

  /** The run's newest marker arrived, and from then on the run was in the window after every arrival. */
  predicate FollowedSince(arrivals: seq<Event>, limit: int, run: string, t: nat) {
    && t < |arrivals| && MarksRun(arrivals[t], run)
    && (forall i | t < i < |arrivals| :: !MarksRun(arrivals[i], run))
    && (forall k | t < k <= |arrivals| :: InWindow(arrivals[..k], limit, run))
  }

  ghost predicate Followed(arrivals: seq<Event>, limit: int, run: string) {
    exists t: nat :: FollowedSince(arrivals, limit, run, t)
  }

  ghost predicate Marked(arrivals: seq<Event>, run: string) {
    exists e :: e in arrivals && MarksRun(e, run)
  }

  lemma FollowedInit(arrivals: seq<Event>, limit: int, run: string)
    requires arrivals != []
    ensures var init, e := arrivals[..|arrivals| - 1], arrivals[|arrivals| - 1];
            Followed(arrivals, limit, run) <==>
              InWindow(arrivals, limit, run) && (MarksRun(e, run) || Followed(init, limit, run))
  {
    hide InWindow;
    var n := |arrivals| - 1;
    var init := arrivals[..n];
    assert arrivals[..|arrivals|] == arrivals;
    if t: nat :| FollowedSince(arrivals, limit, run, t) {
      if t < n {
        assert forall k: nat | t < k <= n :: init[..k] == arrivals[..k];
        assert forall i: nat | t < i < n :: init[i] == arrivals[i];
        assert FollowedSince(init, limit, run, t);
      }
    }
    if InWindow(arrivals, limit, run) && MarksRun(arrivals[n], run) {
      assert FollowedSince(arrivals, limit, run, n);
    } else if InWindow(arrivals, limit, run) {
      if t: nat :| FollowedSince(init, limit, run, t) {
        assert forall k: nat | t < k <= n :: init[..k] == arrivals[..k];
        assert forall i: nat | t < i < n :: init[i] == arrivals[i];
        assert FollowedSince(arrivals, limit, run, t);
      }
    }
  }

  /** What the bounded history still knows of a run: its newest marker while it was followed, else nothing. */
  lemma {:induction false} KeptKnows(arrivals: seq<Event>, limit: int, run: string)
    requires Arriving(arrivals) && run != ""
    ensures FirstMarker(run, Kept(arrivals, limit)) ==
            if Followed(arrivals, limit, run) then FirstMarker(run, Full(arrivals)) else None
    ensures Followed(arrivals, limit, run) ==> FirstMarker(run, Full(arrivals)).Some?
    decreases |arrivals|
  {
    hide NewestFirst, Arriving, Retained, Followed, InWindow;
    if arrivals == [] {
      NeverFollowed(limit, run);
    } else {
      var init, e := arrivals[..|arrivals| - 1], arrivals[|arrivals| - 1];
      ArrivingInit(arrivals);
      KeptKnows(init, limit, run);
      KeptNewestFirst(arrivals, limit);
      FollowedInit(arrivals, limit, run);
      FirstMarkerAppend(run, [e], Kept(init, limit));
      FirstMarkerAppend(run, [e], Full(init));
      RetainedAnswers(Candidates(arrivals, limit), limit, run);
      Window(arrivals, limit, run);
    }
  }

  lemma NeverFollowed(limit: int, run: string)
    ensures !Followed([], limit, run)
  {
  }

  lemma SmallHistoriesAreKept(candidates: seq<Event>, limit: int)
    requires NewestFirst(candidates) && |candidates| <= WindowSize(limit)
    ensures Retained(candidates, limit) == candidates
  {
    DistinctAlready(candidates, {});
    var identities := IdentitiesOf(candidates);
    PreservedFrom(candidates, RunsOf(candidates), identities, {});
    assert forall e <- candidates :: e.identity in identities;
    var preserved := Preserved(candidates, RunsOf(candidates), identities, {});
    FirstIsMember(preserved);
    assert candidates + [] == candidates;
  }

  lemma FirstIsMember(events: seq<Event>)
    ensures events != [] ==> events[0] in events
  {
  }

  lemma {:induction false} FullAt(arrivals: seq<Event>)
    ensures |Full(arrivals)| == |arrivals|
    ensures forall k | 0 <= k < |arrivals| :: Full(arrivals)[k] == arrivals[|arrivals| - 1 - k]
  {
    if arrivals != [] {
      FullAt(arrivals[..|arrivals| - 1]);
    }
  }

  lemma SameFront(e: Event, kept: seq<Event>, full: seq<Event>, size: nat)
    requires 1 <= size <= |full| && full[..size] <= kept
    ensures ([e] + kept)[..size] == ([e] + full)[..size]
  {
    assert ([e] + kept)[..size] == [e] + kept[..size - 1] && ([e] + full)[..size] == [e] + full[..size - 1];
  }

  /** The bounded history never disturbs its own window: it is that of the full history. */
  lemma {:induction false} WindowOfFull(arrivals: seq<Event>, limit: int)
    requires Arriving(arrivals) && arrivals != []
    ensures Recent(Candidates(arrivals, limit), limit) == Recent(Full(arrivals), limit)
    ensures |arrivals| <= WindowSize(limit) ==> Candidates(arrivals, limit) == Full(arrivals)
    decreases |arrivals|
  {
    hide NewestFirst, Retained, Preserved, Arriving;
    var init, e := arrivals[..|arrivals| - 1], arrivals[|arrivals| - 1];
    var kept, full, size := Kept(init, limit), Full(init), WindowSize(limit);
    ArrivingInit(arrivals);
    FullAt(init);
    if init != [] {
      WindowOfFull(init, limit);
      KeptNewestFirst(init, limit);
      RetainedIsBounded(Candidates(init, limit), limit);
      if |init| <= size {
        SmallHistoriesAreKept(Candidates(init, limit), limit);
        assert kept == full;
      } else {
        assert full[..size] <= kept;
        SameFront(e, kept, full, size);
      }
    }
  }

  lemma Window(arrivals: seq<Event>, limit: int, run: string)
    requires Arriving(arrivals) && arrivals != [] && run != ""
    ensures InWindow(arrivals, limit, run) <==> run in RunsOf(Recent(Candidates(arrivals, limit), limit))
  {
    hide Arriving;
    WindowOfFull(arrivals, limit);
    FullAt(arrivals);
    var n, recent := |arrivals|, Recent(Full(arrivals), limit);
    assert forall k | 0 <= k < |recent| :: recent[k] == arrivals[n - 1 - k];
    if InWindow(arrivals, limit, run) {
      var i :| 0 <= i < n && n - WindowSize(limit) <= i && arrivals[i].run == run;
      assert recent[n - 1 - i] in recent;
    }
    if e :| e in recent && e.run == run {
      var k :| 0 <= k < |recent| && recent[k] == e;
      assert arrivals[n - 1 - k].run == run;
    }
  }

  /**
    Over all arrivals, the bounded history answers like the full one exactly when
    there is nothing to answer, or the run has been in the window after every
    arrival since its newest stage marker.
   */
  lemma BoundedAnswersLikeFull(arrivals: seq<Event>, limit: int, run: string)
    requires Arriving(arrivals) && run != ""
    ensures LatestStage(run, Kept(arrivals, limit)) == LatestStage(run, Full(arrivals)) <==>
            !Marked(arrivals, run) || Followed(arrivals, limit, run)
  {
    hide NewestFirst, Arriving, Followed;
    KeptNewestFirst(arrivals, limit);
    FullNewestFirst(arrivals);
    LatestIsFirst(run, Kept(arrivals, limit));
    LatestIsFirst(run, Full(arrivals));
    KeptKnows(arrivals, limit, run);
    FullMarked(arrivals, run);
    FirstMarkerIn(run, Full(arrivals));
  }

  lemma {:induction false} FullMarked(arrivals: seq<Event>, run: string)
    ensures FirstMarker(run, Full(arrivals)).Some? <==> Marked(arrivals, run)
  {
    if arrivals != [] {
      var init, e := arrivals[..|arrivals| - 1], arrivals[|arrivals| - 1];
      FullMarked(init, run);
      FirstMarkerAppend(run, [e], Full(init));
      assert forall f <- arrivals :: f in init || f == e;
      assert forall f <- init :: f in arrivals;
    }
  }

  /** The answer is lost when as many events of other runs arrive as the window holds. */
  lemma LosingTheMarker()
    ensures var arrivals := [Event("1", 1, "a", Some(Plan)), Event("2", 2, "b", None)];
            && Arriving(arrivals)
            && LatestStage("a", Full(arrivals)) == Some(Plan)
            && LatestStage("a", Kept(arrivals, 1)) == None
  {
    var first, second := Event("1", 1, "a", Some(Plan)), Event("2", 2, "b", None);
    var arrivals := [first, second];
    assert arrivals[..1] == [first];
    assert Full([first]) == [first] by { assert [first][..0] == []; }
    assert Full(arrivals) == [second, first];
    LatestIsFirst("a", [second, first]);
    assert FirstMarker("a", [second, first]) == Some(first) by { assert [second, first][1..] == [first]; }
    KeptNewestFirst(arrivals, 1);
    LatestIsFirst("a", Kept(arrivals, 1));
    var candidates := Candidates(arrivals, 1);
    assert Recent(candidates, 1) == [second];
    RetainedAnswers(candidates, 1, "a");
  }

  // The progress bar

  datatype Run = Run(id: string, status: RunStatus, currentStage: Option<Stage>)

  datatype StageState = Complete | Active | Waiting | Attention

  function CurrentRunStage(run: Option<Run>, events: seq<Event>): Option<Stage> {
    match run
    case None => None
    case Some(r) =>
      if r.currentStage.Some? then r.currentStage
      else
        match r.status
        case Planning => Some(Plan)
        case Collecting => Some(Collect)
        case Synthesizing => Some(Synthesize)
        case Reviewing | Revising => Some(Review)
        case WaitingApproval | Failed | QualityFailed | Cancelled | Interrupted | Uncertain => LatestStage(r.id, events)
        case Queued | Succeeded => None
  }

  function IndexOf(stage: Stage): nat {
    match stage
    case Plan => 0
    case Collect => 1
    case Synthesize => 2
    case Review => 3
  }

  function StageStateOf(stage: Stage, run: Option<Run>, events: seq<Event>): StageState {
    match run
    case None => Waiting
    case Some(r) =>
      if r.status == Succeeded then Complete
      else
        match CurrentRunStage(run, events)
        case None => Waiting
        case Some(active) =>
          if IndexOf(stage) < IndexOf(active) then Complete
          else if IndexOf(stage) > IndexOf(active) then Waiting
          else if r.status in {Failed, QualityFailed, Cancelled, Interrupted, Uncertain} then Attention
          else if r.status == WaitingApproval then Waiting
          else Active
  }

  /** A followed run, or one without markers, shows the same progress from the bounded history as from the full one. */
  lemma SameProgress(arrivals: seq<Event>, limit: int, run: Run, stage: Stage)
    requires Arriving(arrivals) && run.id != ""
    requires Followed(arrivals, limit, run.id) || !Marked(arrivals, run.id)
    ensures StageStateOf(stage, Some(run), Kept(arrivals, limit)) == StageStateOf(stage, Some(run), Full(arrivals))
  {
    hide LatestStage, Kept, Full;
    BoundedAnswersLikeFull(arrivals, limit, run.id);
  }

  // What the bar shows

  /** The order in which a run goes through its stages. */
  predicate Precedes(a: Stage, b: Stage) {
    || (a == Plan && b != Plan)
    || (a == Collect && (b == Synthesize || b == Review))
    || (a == Synthesize && b == Review)
  }

  /** Statuses in which a run was ended before it succeeded. */
  predicate Broken(status: RunStatus) {
    status in {Failed, QualityFailed, Cancelled, Interrupted, Uncertain}
  }

  /**
    A stage is complete exactly when the run succeeded or is in a later stage; it
    is the current one that needs attention in a broken run and is active in a
    running one; all others wait, and so does the current one for an approval.
   */
  lemma BarStates(stage: Stage, run: Run, events: seq<Event>)
    ensures var current, state := CurrentRunStage(Some(run), events), StageStateOf(stage, Some(run), events);
            && (state == Complete <==>
                  run.status == Succeeded || (current.Some? && Precedes(stage, current.value)))
            && (state == Attention <==> Broken(run.status) && current == Some(stage))
            && (state == Active <==>
                  !Broken(run.status) && run.status !in {Succeeded, WaitingApproval} && current == Some(stage))
    ensures StageStateOf(stage, None, events) == Waiting
  {
    hide LatestStage;
  }

  /**
    A working run without a stage of its own shows the stage of its status. Along
    the status table it goes to the same or the next stage, or starts planning again.
   */
  lemma WorkGoesForward(run: Run, to: RunStatus, events: seq<Event>)
    requires run.currentStage.None? && Works(run.status) && Works(to) && CanTransition(run.status, to)
    ensures var from := CurrentRunStage(Some(run), events);
            var next := CurrentRunStage(Some(run.(status := to)), events);
            && from.Some? && next.Some?
            && if to == Planning then next == Some(Plan)
               else
                 && !Precedes(next.value, from.value) && (from == next <==> run.status in {Reviewing, Revising})
                 && (forall between :: !(Precedes(from.value, between) && Precedes(between, next.value)))
  {
    hide LatestStage;
  }

  /** It begins in planning; a paused or broken run shows the stage it started last; its own stage goes before all. */
  lemma StagesShown(run: Run, events: seq<Event>)
    ensures run.currentStage.Some? ==> CurrentRunStage(Some(run), events) == run.currentStage
    ensures run.currentStage.None? && run.status == Planning ==> CurrentRunStage(Some(run), events) == Some(Plan)
    ensures run.currentStage.None? && (Broken(run.status) || run.status == WaitingApproval) ==>
              CurrentRunStage(Some(run), events) == LatestStage(run.id, events)
    ensures run.currentStage.None? && run.status in {Queued, Succeeded} ==> CurrentRunStage(Some(run), events) == None
  {
    hide LatestStage;
  }
}
