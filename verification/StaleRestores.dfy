/**
  Schedules in which a restore takes its run out of the stage it waits in, one
  for each hypothesis of ApprovalStages.CheckedRestoresAreRight.
 */
module StaleRestores {
  import opened Wrappers
  import opened RunStates
  import opened Schedules
  import opened ApprovalProtocol
  import opened ApprovalWaits
  import opened ApprovalScenarios
  import opened ApprovalStages

  // Other writers

  lemma OneStep(s: State, action: Action)
    ensures After(s, [action]) == Advance(Next, s, action)
  {
    hide Next;
    FirstStep(Next, s, action, []);
    assert [action] + [] == [action];
  }

  lemma RunMoves(s: State, run: nat, to: RunStatus)
    requires run in s.runs && s.runs[run] != [] && CanTransition(s.runs[run][|s.runs[run]| - 1], to)
    ensures Advance(Next, s, Other(MoveRun(run, to))) ==
            s.(runs := s.runs[run := s.runs[run] + [to]],
               rows := if Retires(to) then RetireAll(s.rows, run) else s.rows,
               foreign := if Retires(to) then s.foreign[run := 0] else s.foreign)
  {
    hide AllowedTransitions, RetireAll, IsSettled;
  }

  /** The other writers of a schedule follow the stages of the runs. */
  predicate WritersFollow(s: State, schedule: seq<Action>) {
    forall k | 0 <= k < |schedule| && schedule[k].Other? :: WritersOrderly(After(s, schedule[..k]), schedule[k].other)
  }

  lemma WritersFollowParts(s: State, first: seq<Action>, second: seq<Action>)
    requires WritersFollow(s, first) && WritersFollow(After(s, first), second)
    ensures WritersFollow(s, first + second)
  {
    hide Next, WritersOrderly;
    var schedule := first + second;
    forall k | 0 <= k < |schedule| && schedule[k].Other?
      ensures WritersOrderly(After(s, schedule[..k]), schedule[k].other)
    {
      if k < |first| {
        assert schedule[..k] == first[..k];
      } else {
        assert schedule[..k] == first + second[..k - |first|];
        TwoParts(Next, s, first, second[..k - |first|]);
      }
    }
  }

  predicate NoWriters(schedule: seq<Action>) {
    forall action <- schedule :: !action.Other?
  }

  /** The run is interrupted, the attempt that had asked is over, and the run is resumed in a stage. */
  function Interruption(run: nat, x: nat, resumed: RunStatus): seq<Action> {
    [Other(MoveRun(run, Interrupted)), Other(EndAttempt(x)), Other(MoveRun(run, resumed))]
  }

  function InterruptedState(s: State, run: nat, x: nat, resumed: RunStatus): State
    requires run in s.runs
  {
    s.(rows := RetireAll(s.rows, run), foreign := s.foreign[run := 0], ended := s.ended + {x},
       runs := s.runs[run := s.runs[run] + [Interrupted] + [resumed]])
  }

  lemma WaitingMayBeInterrupted()
    ensures CanTransition(WaitingApproval, Interrupted) && Retires(Interrupted)
  {
  }

  /** A wait that is interrupted retires its rows, but the router keeps its entries. */
  lemma InterruptedWait(s: State, run: nat, x: nat, resumed: RunStatus)
    requires StatusOf(s, run) == Some(WaitingApproval) && CanTransition(Interrupted, resumed) && !Retires(resumed)
    ensures After(s, Interruption(run, x, resumed)) == InterruptedState(s, run, x, resumed)
    ensures !Blocked(InterruptedState(s, run, x, resumed), run)
  {
    hide AllowedTransitions, Next, RetireAll, Retires;
    WaitingMayBeInterrupted();
    var p := Interruption(run, x, resumed);
    ThreeSteps(Next, s, p[0], p[1], p[2]);
    RunMoves(s, run, Interrupted);
    var s1 := Advance(Next, s, p[0]);
    Ends(s1, x);
    RunMoves(s1.(ended := s1.ended + {x}), run, resumed);
    NothingPending(s.rows, run);
  }

  lemma Ends(s: State, x: nat)
    ensures Advance(Next, s, Other(EndAttempt(x))) == s.(ended := s.ended + {x})
  {
  }

  lemma NothingPending(rows: seq<Row>, run: nat)
    ensures !HasPendingRow(RetireAll(rows, run), run)
  {
  }

  /** The resumption is orderly once all attempts that had asked are over. */
  lemma InterruptionFollows(s: State, run: nat, x: nat, resumed: RunStatus)
    requires StatusOf(s, run) == Some(WaitingApproval) && AttemptsEnded(s.(ended := s.ended + {x}), run)
    ensures WritersFollow(s, Interruption(run, x, resumed))
  {
    hide AllowedTransitions, RetireAll, Base;
    WaitingMayBeInterrupted();
    var p := Interruption(run, x, resumed);
    RunMoves(s, run, Interrupted);
    OneStep(s, p[0]);
    var s1 := Advance(Next, s, p[0]);
    FirstStep(Next, s, p[0], [p[1]]);
    OneStep(s1, p[1]);
    Ends(s1, x);
    assert p[..0] == [] && p[..1] == [p[0]] && p[..2] == [p[0]] + [p[1]];
  }

  // A prior of an earlier wait

  /**
    Whenever an entry of an earlier wait is left in memory, a second request of
    the next wait may take over its prior; deciding that request last puts the
    run back into the status of the earlier wait.
   */
  function Takeover(run: nat, from: nat, row: nat, y: nat, d: nat): seq<Action> {
    Reading(run, y) + WRITING + (Joining(run, from, y) + WRITING) + Deciding(d, row, true) + Closing(d)
      + Deciding(d, row + 1, true)
  }

  lemma JoinRun(s: State, run: nat, from: nat, y: nat)
    requires s.router == Idle && StatusOf(s, run) == Some(WaitingApproval) && y !in s.ended
    requires from in s.pending && s.pending[from].run == run
    ensures var prior := s.pending[from].prior.(read := |s.runs[run]| - 1, source := Some(from));
            After(s, Joining(run, from, y) + WRITING) ==
            WrittenState(ReadState(s, run, y, WaitingApproval, prior), |s.requests|, prior, s.runs)
  {
    hide AllowedTransitions, Next;
    var prior := s.pending[from].prior.(read := |s.runs[run]| - 1, source := Some(from));
    TwoParts(Next, s, Joining(run, from, y), WRITING);
    Joins(s, run, from, y);
    Writes(ReadState(s, run, y, WaitingApproval, prior), |s.requests|, WaitingApproval, prior);
  }

  /** The last two rows are pending requests of the waiting run and of live attempts; nothing else blocks the run. */
  predicate LastTwo(s: State, run: nat, a: nat) {
    && |s.rows| == a + 2 && !HasPendingRow(s.rows[..a], run) && s.foreign[run] == 0
    && StatusOf(s, run) == Some(WaitingApproval)
    && forall b | a <= b <= a + 1 ::
         && s.rows[b].status == Pending && s.rows[b].run == run && !AttemptEnded(s, b)
         && b in s.pending && s.pending[b].run == run && CanTransition(WaitingApproval, s.pending[b].prior.status)
  }

  /** Both are approved, in this order: only the second decision moves the run. */
  lemma DecideBoth(s: State, run: nat, a: nat, b: nat, c: nat, d: nat)
    requires d !in s.deciders && LastTwo(s, run, a) && ((b == a && c == a + 1) || (b == a + 1 && c == a))
    ensures var end := After(s, Deciding(d, b, true) + Closing(d) + Deciding(d, c, true));
            end.runs == s.runs[run := s.runs[run] + [s.pending[c].prior.status]]
  {
    hide AllowedTransitions, Next, HasPendingRow;
    TwoParts(Next, s, Deciding(d, b, true), Closing(d));
    TwoParts(Next, s, Deciding(d, b, true) + Closing(d), Deciding(d, c, true));
    DecideParked(s, d, b, true);
    var s1 := ReleasedState(s, d, b, true);
    PendingAt(s1.rows, run, c);
    AnswerReleased(s1, d);
    var s2 := After(s1, Closing(d));
    assert !AttemptEnded(s2, c);
    DecideParked(s2, d, c, true);
    var s3 := ReleasedState(s2, d, c, true);
    var r, t := s.rows[a].(status := Approved), s.rows[a + 1].(status := Approved);
    assert s3.rows == s.rows[..a] + [r] + [t];
    RowDecided(s.rows[..a], run, r);
    RowDecided(s.rows[..a] + [r], run, t);
  }

  lemma TakeoverRestores(s: State, run: nat, from: nat, y: nat, d: nat)
    requires MayBegin(s, run, y) && d !in s.deciders && !Blocked(s, run)
    requires from in s.pending && from < |s.rows| && s.pending[from].run == run
    requires CanTransition(WaitingApproval, s.pending[from].prior.status)
    ensures After(s, Takeover(run, from, |s.rows|, y, d)).runs ==
            var waiting := s.runs[run] + [WaitingApproval];
            s.runs[run := waiting][run := waiting + [s.pending[from].prior.status]]
  {
    hide AllowedTransitions, Next, HasPendingRow;
    var a := |s.rows|;
    WaitingIsReversible(s.runs[run][|s.runs[run]| - 1]);
    var first, second := Reading(run, y) + WRITING, Joining(run, from, y) + WRITING;
    var third := Deciding(d, a, true) + Closing(d) + Deciding(d, a + 1, true);
    assert Takeover(run, from, a, y, d) == first + second + third;
    TwoParts(Next, s, first, second);
    TwoParts(Next, s, first + second, third);
    ParkRun(s, run, y);
    var s1 := ParkedState(s, run, y);
    JoinRun(s1, run, from, y);
    var s2 := After(s1, second);
    assert s2.rows[..a] == s.rows;
    DecideBoth(s2, run, a, a, a + 1, d);
  }

  /**
    From every idle state a run that waits, is interrupted and resumed in another
    stage can be put back, from the wait of that stage, into the first. Other
    writers do nothing but interrupt the run and, after the attempt that had
    asked is over, resume it: they follow the stages.
   */
  lemma PriorsCanBeStale(s: State, run: nat, resumed: RunStatus, x: nat, y: nat, d: nat)
    requires MayBegin(s, run, x) && AttemptsEnded(s.(ended := s.ended + {x}), run)
    requires y !in s.ended && y != x && d !in s.deciders
    requires CanTransition(Interrupted, resumed) && CanTransition(resumed, WaitingApproval)
    ensures var h, a := s.runs[run], |s.rows|;
            var schedule := Reading(run, x) + WRITING + Interruption(run, x, resumed) + Takeover(run, a, a + 1, y, d);
            var end := After(s, schedule);
            && run in end.runs && WritersFollow(s, schedule)
            && end.runs[run] == h + [WaitingApproval] + [Interrupted] + [resumed] + [WaitingApproval] + [h[|h| - 1]]
  {
    hide AllowedTransitions, Next, HasPendingRow, Blocked, WritersFollow;
    var h, a := s.runs[run], |s.rows|;
    WaitingIsReversible(h[|h| - 1]);
    StagesDoNotRetire(resumed);
    var first, second, third := Reading(run, x) + WRITING, Interruption(run, x, resumed), Takeover(run, a, a + 1, y, d);
    TwoParts(Next, s, first, second);
    TwoParts(Next, s, first + second, third);
    InterruptedAsking(s, run, resumed, x);
    var s2 := After(s, first + second);
    TakeoverRestores(s2, run, a, y, d);
    assert NoWriters(third);
    NoWritersFollow(s2, third);
    WritersFollowParts(s, first + second, third);
  }

  lemma NoWritersFollow(s: State, schedule: seq<Action>)
    requires NoWriters(schedule)
    ensures WritersFollow(s, schedule)
  {
  }

  /** The run asks, waits and is interrupted; its request stays in the router's memory. */
  lemma InterruptedAsking(s: State, run: nat, resumed: RunStatus, x: nat)
    requires MayBegin(s, run, x) && AttemptsEnded(s.(ended := s.ended + {x}), run)
    requires CanTransition(Interrupted, resumed) && !Retires(resumed)
    ensures var schedule := Reading(run, x) + WRITING + Interruption(run, x, resumed);
            && After(s, schedule) == InterruptedState(ParkedState(s, run, x), run, x, resumed)
            && WritersFollow(s, schedule) && !Blocked(After(s, schedule), run)
  {
    hide AllowedTransitions, Next, HasPendingRow, Blocked, WritersFollow;
    var first, second := Reading(run, x) + WRITING, Interruption(run, x, resumed);
    TwoParts(Next, s, first, second);
    ParkRun(s, run, x);
    var s1 := ParkedState(s, run, x);
    InterruptedWait(s1, run, x, resumed);
    InterruptionFollows(s1, run, x, resumed);
    assert NoWriters(first);
    NoWritersFollow(s, first);
    WritersFollowParts(s, first, second);
  }

  const QUEUED_RUN := State([], [], {}, multiset{}, Idle, map[], map[], map[], map[0 := [Queued]], [])

  /** One such run from the start: it waits while collecting and ends up planning. */
  lemma StaleExample()
    ensures Initial(QUEUED_RUN)
    ensures var schedule := [Other(MoveRun(0, Planning))]
              + (Reading(0, 0) + WRITING + Interruption(0, 0, Collecting) + Takeover(0, 0, 1, 1, 0));
            var end := After(QUEUED_RUN, schedule);
            && 0 in end.runs && WritersFollow(QUEUED_RUN, schedule)
            && end.runs[0] == [Queued, Planning] + [WaitingApproval] + [Interrupted] + [Collecting]
               + [WaitingApproval] + [Planning]
  {
    hide Next, WritersFollow;
    var first, second := [Other(MoveRun(0, Planning))],
      Reading(0, 0) + WRITING + Interruption(0, 0, Collecting) + Takeover(0, 0, 1, 1, 0);
    TwoParts(Next, QUEUED_RUN, first, second);
    OneStep(QUEUED_RUN, first[0]);
    RunMoves(QUEUED_RUN, 0, Planning);
    assert [Queued] + [Planning] == [Queued, Planning];
    PriorsCanBeStale(After(QUEUED_RUN, first), 0, Collecting, 0, 1, 0);
    PlanningFollows(first);
    WritersFollowParts(QUEUED_RUN, first, second);
  }

  lemma PlanningFollows(first: seq<Action>)
    requires first == [Other(MoveRun(0, Planning))]
    ensures WritersFollow(QUEUED_RUN, first)
  {
    assert first[..0] == [];
  }

  // A decided request whose run is resumed late

  /** The first half of a decision: the row is decided, the run not yet resumed. */
  function Settling(d: nat, row: nat, approve: bool): seq<Action> {
    [User(d, Look(row, approve)), User(d, DecideRow(true))]
  }

  function SettledState(s: State, d: nat, row: nat, approve: bool): State
    requires row < |s.rows| && row in s.pending
  {
    var entry := s.pending[row];
    s.(rows := s.rows[row := s.rows[row].(status := Decision(approve))],
       trace := s.trace + [Chosen(row, entry.request, approve)],
       deciders := s.deciders[d := Decided(row, entry, approve)])
  }

  lemma SettleParked(s: State, d: nat, row: nat, approve: bool)
    requires d !in s.deciders && row in s.pending && RowPending(s, row) && !AttemptEnded(s, row)
    requires StatusOf(s, s.rows[row].run) == Some(WaitingApproval)
    ensures After(s, Settling(d, row, approve)) == SettledState(s, d, row, approve)
  {
    hide AllowedTransitions, Next;
    var p, entry := Settling(d, row, approve), s.pending[row];
    FirstStep(Next, s, p[0], [p[1]]);
    assert [p[0]] + [p[1]] == p;
    OneStep(Advance(Next, s, p[0]), p[1]);
    Looks(s, d, row, approve);
    var s1 := s.(deciders := s.deciders[d := Looked(row, entry, approve)]);
    assert !AttemptEnded(s1, row);
    Decides(s1, d, row, entry, approve);
    assert s1.deciders[d := Decided(row, entry, approve)] == s.deciders[d := Decided(row, entry, approve)];
  }

  /**
    A request is denied; before its run is resumed the run is interrupted and
    resumed in another stage, where a second request is approved.
   */
  function LateResume(run: nat, a: nat, resumed: RunStatus, x: nat, y: nat, d: nat, e: nat): seq<Action> {
    Reading(run, x) + WRITING + Settling(d, a, false) + Interruption(run, x, resumed)
    + (Reading(run, y) + WRITING + Settling(e, a + 1, true)) + [User(d, Resume(true))]
  }

  /** A request is parked and decided, and its decider stands before the resume. */
  lemma ParkAndSettle(s: State, run: nat, x: nat, d: nat, approve: bool)
    requires MayBegin(s, run, x) && d !in s.deciders
    ensures After(s, Reading(run, x) + WRITING + Settling(d, |s.rows|, approve)) ==
            SettledState(ParkedState(s, run, x), d, |s.rows|, approve)
  {
    hide AllowedTransitions, Next;
    TwoParts(Next, s, Reading(run, x) + WRITING, Settling(d, |s.rows|, approve));
    ParkRun(s, run, x);
    SettleParked(ParkedState(s, run, x), d, |s.rows|, approve);
  }

  /** The row that was written last is decided, and so the run is blocked as it was before. */
  lemma SettledBlocked(s: State, run: nat, x: nat, d: nat, approve: bool)
    requires run in s.runs && s.runs[run] != []
    ensures Blocked(SettledState(ParkedState(s, run, x), d, |s.rows|, approve), run) == Blocked(s, run)
  {
    hide HasPendingRow;
    var parked, a := ParkedState(s, run, x), |s.rows|;
    var row := parked.rows[a].(status := Decision(approve));
    assert parked.rows[a := row] == s.rows + [row];
    RowDecided(s.rows, run, row);
  }

  /** The first decision then takes the run out of the wait of the second stage into the first. */
  lemma ResumesCanBeLate(s: State, run: nat, resumed: RunStatus, x: nat, y: nat, d: nat, e: nat)
    requires MayBegin(s, run, x) && AttemptsEnded(s.(ended := s.ended + {x}), run)
    requires y !in s.ended && y != x && d !in s.deciders && e !in s.deciders && d != e
    requires CanTransition(Interrupted, resumed) && CanTransition(resumed, WaitingApproval)
    ensures var h := s.runs[run];
            var schedule := LateResume(run, |s.rows|, resumed, x, y, d, e);
            var end := After(s, schedule);
            && run in end.runs && WritersFollow(s, schedule)
            && end.runs[run] == h + [WaitingApproval] + [Interrupted] + [resumed] + [WaitingApproval] + [h[|h| - 1]]
  {
    hide AllowedTransitions, Next, HasPendingRow, Blocked, WritersFollow, After;
    var h, a := s.runs[run], |s.rows|;
    WaitingIsReversible(h[|h| - 1]);
    StagesDoNotRetire(resumed);
    var first, second := Reading(run, x) + WRITING + Settling(d, a, false), Interruption(run, x, resumed);
    var third, fourth := Reading(run, y) + WRITING + Settling(e, a + 1, true), [User(d, Resume(true))];
    assert first + second + (third + fourth) == LateResume(run, a, resumed, x, y, d, e);
    FourParts(s, first, second, third, fourth);
    ParkAndSettle(s, run, x, d, false);
    var s1 := After(s, first);
    InterruptedWait(s1, run, x, resumed);
    InterruptionFollows(s1, run, x, resumed);
    var s2 := After(s1, second);
    assert NoWriters(first) && NoWriters(third + fourth);
    NoWritersFollow(s, first);
    NoWritersFollow(s2, third + fourth);
    WritersFollowParts(s, first, second);
    WritersFollowParts(s, first + second, third + fourth);
    ParkAndSettle(s2, run, y, e, true);
    SettledBlocked(s2, run, y, e, true);
    var s3 := After(s2, third);
    OneStep(s3, fourth[0]);
    Resumes(s3, d, a, s1.pending[a], false);
    SameBlocked(s3, s3.(deciders := s3.deciders[d := Resumed(a, s1.pending[a], false)]), run);
  }

  lemma FourParts(s: State, a: seq<Action>, b: seq<Action>, c: seq<Action>, d: seq<Action>)
    ensures After(s, a + b) == After(After(s, a), b)
    ensures After(s, a + b + (c + d)) == After(After(After(After(s, a), b), c), d)
  {
    hide Next;
    TwoParts(Next, s, a, b);
    TwoParts(Next, s, a + b, c + d);
    TwoParts(Next, After(s, a + b), c, d);
  }

  // A row written after its wait

  /**
    A request reads the waiting run and the prior, but writes its row only after
    the wait has ended and the run has moved on; a request of the next stage then
    makes the run wait again.
   */
  function LateRow(run: nat, a: nat, next: RunStatus, x: nat, y: nat, d: nat): seq<Action> {
    Reading(run, x) + WRITING + Joining(run, a, x) + (Deciding(d, a, true) + Closing(d))
    + ([Other(MoveRun(run, next))] + WRITING) + (Reading(run, y) + WRITING)
    + (Deciding(d, a + 2, true) + Closing(d) + Deciding(d, a + 1, true))
  }

  /** The first wait ends while the second request is still on its way. */
  lemma WaitEndsEarly(s: State, run: nat, x: nat, d: nat)
    requires MayBegin(s, run, x) && d !in s.deciders && !Blocked(s, run)
    ensures var h, a, q := s.runs[run], |s.rows|, |s.requests|;
            var end := After(s, Reading(run, x) + WRITING + Joining(run, a, x) + (Deciding(d, a, true) + Closing(d)));
            && end.router == PriorKnown(q + 1, WaitingApproval, |h|, Prior(h[|h| - 1], |h|, |h|, Some(a)))
            && end.requests == s.requests + [Asking(run, x)] + [Asking(run, x)]
            && run in end.runs && end.runs[run] == h + [WaitingApproval] + [h[|h| - 1]]
            && |end.rows| == a + 1 && !Blocked(end, run) && d !in end.deciders && end.ended == s.ended
  {
    hide AllowedTransitions, Next, HasPendingRow;
    var h, a := s.runs[run], |s.rows|;
    WaitingIsReversible(h[|h| - 1]);
    var first, second, third := Reading(run, x) + WRITING, Joining(run, a, x), Deciding(d, a, true) + Closing(d);
    TwoParts(Next, s, first, second);
    TwoParts(Next, s, first + second, third);
    ParkRun(s, run, x);
    var s1 := ParkedState(s, run, x);
    Joins(s1, run, a, x);
    var s2 := After(s1, second);
    TwoParts(Next, s2, Deciding(d, a, true), Closing(d));
    assert !AttemptEnded(s2, a);
    DecideParked(s2, d, a, true);
    var s3 := ReleasedState(s2, d, a, true);
    var row := s2.rows[a].(status := Approved);
    assert s3.rows == s.rows + [row];
    RowDecided(s.rows, run, row);
    AnswerReleased(s3, d);
  }

  /** The late row joins the memory although its run is in another stage, and the next wait begins. */
  lemma LateRowWritten(s: State, run: nat, next: RunStatus, x: nat, y: nat, q: nat, prior: Prior)
    requires s.router == PriorKnown(q, WaitingApproval, prior.read, prior) && q < |s.requests|
        && s.requests[q] == Asking(run, x) && x !in s.ended && y !in s.ended
    requires run in s.runs && s.runs[run] != [] && CanTransition(s.runs[run][|s.runs[run]| - 1], next)
    requires CanTransition(next, WaitingApproval) && !Blocked(s, run)
    requires CanTransition(WaitingApproval, prior.status)
    ensures var h, a := s.runs[run], |s.rows|;
            var end := After(s, [Other(MoveRun(run, next))] + WRITING + (Reading(run, y) + WRITING));
            && run in end.runs && end.runs[run] == h + [next] + [WaitingApproval] && end.deciders == s.deciders
            && LastTwo(end, run, a) && end.pending[a].prior == prior
  {
    hide AllowedTransitions, Next, HasPendingRow, Retires;
    StagesDoNotRetire(next);
    WaitingIsReversible(next);
    var first := [Other(MoveRun(run, next))];
    TwoParts(Next, s, first, WRITING);
    TwoParts(Next, s, first + WRITING, Reading(run, y) + WRITING);
    OneStep(s, first[0]);
    RunMoves(s, run, next);
    var s1 := After(s, first);
    Writes(s1, q, WaitingApproval, prior);
    var s2 := WrittenState(s1, q, prior, s1.runs);
    ParkRun(s2, run, y);
    assert ParkedState(s2, run, y).rows[..|s.rows|] == s.rows;
  }

  /**
    The run then leaves the wait of the later stage for the earlier one, and no
    approval was retired. This takes a writer that changes the stage while an
    attempt of the stage is open, which the engine does not do: the lemma shows
    that CheckedRestoresAreRight needs its hypothesis on writers.
   */
  lemma PriorsCanBeLate(s: State, run: nat, next: RunStatus, x: nat, y: nat, d: nat)
    requires MayBegin(s, run, x) && y !in s.ended && d !in s.deciders && !Blocked(s, run)
    requires CanTransition(s.runs[run][|s.runs[run]| - 1], next) && CanTransition(next, WaitingApproval)
    ensures var h := s.runs[run];
            var schedule := LateRow(run, |s.rows|, next, x, y, d);
            var end := After(s, schedule);
            && run in end.runs && !WritersFollow(s, schedule)
            && end.runs[run] == h + [WaitingApproval] + [h[|h| - 1]] + [next] + [WaitingApproval] + [h[|h| - 1]]
  {
    hide AllowedTransitions, Next, HasPendingRow, Blocked, WritersFollow;
    var h, a := s.runs[run], |s.rows|;
    WaitingIsReversible(h[|h| - 1]);
    var first := Reading(run, x) + WRITING + Joining(run, a, x) + (Deciding(d, a, true) + Closing(d));
    var second := [Other(MoveRun(run, next))] + WRITING + (Reading(run, y) + WRITING);
    var third := Deciding(d, a + 2, true) + Closing(d) + Deciding(d, a + 1, true);
    assert LateRow(run, a, next, x, y, d) == first + second + third;
    TwoParts(Next, s, first, second);
    TwoParts(Next, s, first + second, third);
    WaitEndsEarly(s, run, x, d);
    var s1 := After(s, first);
    LateRowWritten(s1, run, next, x, y, |s.requests| + 1, s1.router.prior);
    DecideBoth(After(s1, second), run, a + 1, a + 2, a + 1, d);
    StagesDoNotRetire(h[|h| - 1]);
    LeavesStage(s, s1, run, next, |s.requests|, first, second + third);
    assert first + (second + third) == LateRow(run, a, next, x, y, d);
  }

  /** The stage is left while a request of it is unsettled. */
  lemma LeavesStage(s: State, t: State, run: nat, next: RunStatus, q: nat, first: seq<Action>, rest: seq<Action>)
    requires t == After(s, first) && rest != [] && rest[0] == Other(MoveRun(run, next))
    requires q < |t.requests| && t.requests[q].run == run && t.requests[q].attempt !in t.ended
    requires run in t.runs && t.runs[run] != []
    requires var status := t.runs[run][|t.runs[run]| - 1]; status != WaitingApproval && CanTransition(status, next)
    requires CanTransition(next, WaitingApproval)
    ensures !WritersFollow(s, first + rest)
  {
    hide After, AllowedTransitions, Retires;
    var schedule := first + rest;
    var h := t.runs[run];
    StagesDoNotRetire(next);
    NoSelfMove(h[|h| - 1], next);
    assert schedule[..|first|] == first && schedule[|first|] == rest[0];
    assert !AttemptsEnded(t, run);
    assert Base(h + [next]) == next && Base(h) == h[|h| - 1];
    assert !WritersOrderly(t, schedule[|first|].other);
  }

  lemma NoSelfMove(status: RunStatus, to: RunStatus)
    requires CanTransition(status, to)
    ensures status != to
  {
  }
}
