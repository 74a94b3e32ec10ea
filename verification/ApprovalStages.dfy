/**
  Restores and stages: when writers change a run's stage only after its stage
  attempts have ended, two checks make every restore right.
 */
module ApprovalStages {
  import opened Wrappers
  import opened RunStates
  import opened Schedules
  import opened ApprovalProtocol
  import opened ApprovalWaits

  /** The status a run is in, or waits from. */
  function Base(h: seq<RunStatus>): RunStatus
    requires h != []
  {
    if |h| > 1 && h[|h| - 1] == WaitingApproval then h[|h| - 2] else h[|h| - 1]
  }

  predicate AttemptsEnded(s: State, run: nat) {
    forall q | 0 <= q < |s.requests| && s.requests[q].run == run :: s.requests[q].attempt in s.ended
  }

  /** Other writers take a run into another stage only after all attempts that asked for approvals have ended. */
  predicate WritersOrderly(s: State, action: OtherAction) {
    match action
    case MoveRun(run, to) =>
      run in s.runs && s.runs[run] != [] ==>
        Retires(to) || Base(s.runs[run] + [to]) == Base(s.runs[run]) || AttemptsEnded(s, run)
    case _ => true
  }

  /** A prior is copied only from a request whose attempt is in progress. */
  predicate CopyChecked(s: State, action: LoopAction) {
    action.CopyPrior? ==> !AttemptEnded(s, action.from)
  }

  /** A run is resumed only for a request whose attempt is in progress. */
  predicate ResumeChecked(s: State, d: nat, action: UserAction) {
    action.Resume? && d in s.deciders && s.deciders[d].Decided? ==> !AttemptEnded(s, s.deciders[d].row)
  }

  predicate Orderly(s: State, action: Action) {
    match action
    case Loop(loop) => CopyChecked(s, loop)
    case User(d, user) => ResumeChecked(s, d, user)
    case Other(other) => WritersOrderly(s, other)
  }

  predicate AllOrderly(start: State, schedule: seq<Action>) {
    forall k | 0 <= k < |schedule| :: Orderly(After(start, schedule[..k]), schedule[k])
  }

  // The invariant: the priors of live attempts name the stage of their run

  /** The status is the one the run is in or waits from, unless the run was taken out of its stage. */
  predicate StageIs(runs: map<nat, seq<RunStatus>>, run: nat, status: RunStatus) {
    run in runs && runs[run] != [] && (Retires(Base(runs[run])) || Base(runs[run]) == status)
  }

  predicate RowsOfRequests(s: State) {
    forall a | 0 <= a < |s.rows| ::
      s.rows[a].request < |s.requests| && s.rows[a].run == s.requests[s.rows[a].request].run
  }

  predicate ParkedStages(s: State) {
    forall a | a in s.parked && !AttemptEnded(s, a) :: StageIs(s.runs, s.parked[a].run, s.parked[a].prior.status)
  }

  predicate Live(s: State, q: nat) {
    q < |s.requests| && s.requests[q].attempt !in s.ended
  }

  predicate LoopStage(s: State) {
    match s.router
    case RunRead(q, seen, _) => Live(s, q) && seen != WaitingApproval ==> StageIs(s.runs, s.requests[q].run, seen)
    case PriorKnown(q, _, _, prior) => Live(s, q) ==> StageIs(s.runs, s.requests[q].run, prior.status)
    case RowCreated(q, _, _, prior, _) => Live(s, q) ==> StageIs(s.runs, s.requests[q].run, prior.status)
    case Registering(q, prior, _) => Live(s, q) ==> StageIs(s.runs, s.requests[q].run, prior.status)
    case _ => true
  }

  predicate StageInv(s: State) {
    RowsOfRequests(s) && ParkedStages(s) && LoopStage(s)
  }

  /** Runs keep their stage, except where all attempts of a run have ended or it was taken out of its stage. */
  predicate StagesKept(s: State, next: State) {
    forall run | run in s.runs && s.runs[run] != [] ::
      && run in next.runs && next.runs[run] != []
      && (Base(next.runs[run]) == Base(s.runs[run]) || Retires(Base(next.runs[run])) || AttemptsEnded(next, run))
  }

  lemma StageStays(s: State, next: State, run: nat, status: RunStatus)
    requires StagesKept(s, next) && StageIs(s.runs, run, status) && !AttemptsEnded(next, run)
    ensures StageIs(next.runs, run, status)
  {
  }

  /** A step that parks nothing. */
  lemma ParkedStay(s: State, next: State)
    requires RowsOfRequests(next) && ParkedStages(s) && Origins(next) && StagesKept(s, next)
    requires next.parked == s.parked && s.requests <= next.requests && s.ended <= next.ended
    requires |s.rows| <= |next.rows| && forall a | 0 <= a < |s.rows| :: next.rows[a].request == s.rows[a].request
    requires Origins(s)
    ensures ParkedStages(next)
  {
    hide Restorable, Copied;
    forall a | a in next.parked && !AttemptEnded(next, a)
      ensures StageIs(next.runs, next.parked[a].run, next.parked[a].prior.status)
    {
      assert Found(s, a, s.parked[a].run, s.parked[a].prior);
      assert Found(next, a, next.parked[a].run, next.parked[a].prior);
      assert !AttemptEnded(s, a);
      var q := next.rows[a].request;
      assert next.requests[q].run == next.parked[a].run && next.requests[q].attempt !in next.ended;
      StageStays(s, next, s.parked[a].run, s.parked[a].prior.status);
    }
  }

  // Steps keep it

  /** A step after which rows and requests are what they were, or more. */
  predicate Extends(s: State, next: State) {
    && s.requests <= next.requests && s.ended <= next.ended
    && |s.rows| <= |next.rows| && forall a | 0 <= a < |s.rows| ::
         next.rows[a].request == s.rows[a].request && next.rows[a].run == s.rows[a].run
  }

  /** A step of a user or another writer. */
  lemma AroundTheLoop(s: State, next: State)
    requires StageInv(s) && Origins(s) && Origins(next) && StagesKept(s, next) && Extends(s, next)
    requires next.parked == s.parked && next.router == s.router
    requires |next.rows| == |s.rows| && next.requests == s.requests
    requires RouterReads(s)
    ensures StageInv(next)
  {
    hide Origins, StagesKept, StageIs;
    ParkedStay(s, next);
    if s.router.RunRead? || s.router.PriorKnown? || s.router.RowCreated? || s.router.Registering? {
      var q := s.router.request;
      if Live(next, q) {
        var run := s.requests[q].run;
        if s.router.RunRead? && s.router.seen != WaitingApproval {
          StageStays(s, next, run, s.router.seen);
        } else if !s.router.RunRead? {
          StageStays(s, next, run, s.router.prior.status);
        }
      }
    }
  }

  /** A status from which a wait can begin is not one that takes a run out of its stage. */
  lemma StagesDoNotRetire(status: RunStatus)
    requires CanTransition(status, WaitingApproval)
    ensures !Retires(status) && status != WaitingApproval
  {
  }

  /** While a run waits, its stage is the status before the last. */
  lemma WaitingFrom(h: seq<RunStatus>)
    requires FollowsTable(h) && |h| > 1 && h[|h| - 1] == WaitingApproval
    ensures Base(h) == h[|h| - 2] && !Retires(Base(h))
  {
    assert CanTransition(h[|h| - 1 - 1], h[|h| - 1]);
    StagesDoNotRetire(h[|h| - 2]);
  }

  lemma ParkedStage(s: State, d: nat)
    requires Inv(s) && WaitInv(s) && ParkedStages(s)
    requires d in s.deciders && s.deciders[d].Decided? && !AttemptEnded(s, s.deciders[d].row)
    requires StatusOf(s, s.deciders[d].entry.run) == Some(WaitingApproval)
    ensures var entry := s.deciders[d].entry;
            && entry.run in s.runs && |s.runs[entry.run]| > 1 && FollowsTable(s.runs[entry.run])
            && StageIs(s.runs, entry.run, entry.prior.status) && entry.prior.status != WaitingApproval
  {
    hide SharedInv, RouterInv, RouterReads, Copied, Memory, StageIs, AttemptEnded, FollowsTable, Retires;
    DecidedEntry(s, d);
    RunFollowsTable(s, s.deciders[d].entry.run);
    StagesDoNotRetire(s.deciders[d].entry.prior.status);
  }

  /** The status of a decided entry whose attempt is in progress is the one its run waits from. */
  lemma LiveEntryIsRight(s: State, d: nat)
    requires Inv(s) && WaitInv(s) && ParkedStages(s)
    requires d in s.deciders && s.deciders[d].Decided? && !AttemptEnded(s, s.deciders[d].row)
    requires StatusOf(s, s.deciders[d].entry.run) == Some(WaitingApproval)
    ensures var entry := s.deciders[d].entry;
            var h := s.runs[entry.run];
            |h| > 1 && entry.prior.status == h[|h| - 2] == Base(h) && entry.prior.status != WaitingApproval
  {
    var entry := s.deciders[d].entry;
    ParkedStage(s, d);
    hide Inv, WaitInv, AllowedTransitions, Retires, AttemptEnded, ParkedStages;
    WaitingFrom(s.runs[entry.run]);
  }

  /** The runs after a step in which one run gained a version. */
  lemma OneRunMoved(s: State, next: State, run: nat, to: RunStatus)
    requires run in s.runs && s.runs[run] != [] && next.runs == s.runs[run := s.runs[run] + [to]]
    requires Base(s.runs[run] + [to]) == Base(s.runs[run]) || Retires(to) || AttemptsEnded(next, run)
    ensures StagesKept(s, next)
  {
    var h := s.runs[run] + [to];
    assert Retires(to) ==> Base(h) == to;
  }

  lemma UserExtends(s: State, d: nat, action: UserAction)
    requires UserStep(s, d, action).Some?
    ensures var next := UserStep(s, d, action).value;
            && Extends(s, next) && next.parked == s.parked && next.router == s.router
            && |next.rows| == |s.rows| && next.requests == s.requests
  {
    hide AllowedTransitions, Blocked;
  }

  lemma OtherExtends(s: State, action: OtherAction)
    requires OtherStep(s, action).Some?
    ensures var next := OtherStep(s, action).value;
            && Extends(s, next) && next.parked == s.parked && next.router == s.router
            && |next.rows| == |s.rows| && next.requests == s.requests
  {
    hide AllowedTransitions;
  }

  lemma UserStages(s: State, d: nat, action: UserAction)
    requires Inv(s) && WaitInv(s) && StageInv(s) && UserStep(s, d, action).Some? && ResumeChecked(s, d, action)
    ensures StageInv(UserStep(s, d, action).value)
  {
    hide Inv, Origins, Memory, RouterReads, StageInv, UserStep, AllowedTransitions;
    var next := UserStep(s, d, action).value;
    UserWaits(s, d, action);
    UserExtends(s, d, action);
    if next.runs != s.runs {
      UserMovesRuns(s, d, action);
    }
    AroundTheLoop(s, next);
  }

  lemma UserMovesRuns(s: State, d: nat, action: UserAction)
    requires Inv(s) && WaitInv(s) && StageInv(s) && UserStep(s, d, action).Some? && ResumeChecked(s, d, action)
    requires UserStep(s, d, action).value.runs != s.runs
    ensures StagesKept(s, UserStep(s, d, action).value)
  {
    hide Inv, WaitInv, ParkedStages, LoopStage, AllowedTransitions, StagesKept, Base, Blocked;
    OnlyResumesMove(s, d, action);
    var next, entry := UserStep(s, d, action).value, s.deciders[d].entry;
    ResumeChangesWaitingRuns(s, d, action.stageActive);
    LiveEntryIsRight(s, d);
    EndsWith(s.runs[entry.run], entry.prior.status);
    OneRunMoved(s, next, entry.run, entry.prior.status);
  }

  lemma OnlyResumesMove(s: State, d: nat, action: UserAction)
    requires UserStep(s, d, action).Some? && UserStep(s, d, action).value.runs != s.runs
    ensures d in s.deciders && s.deciders[d].Decided? && action.Resume?
  {
    hide AllowedTransitions, Blocked;
  }

  lemma EndsWith(h: seq<RunStatus>, to: RunStatus)
    requires to != WaitingApproval
    ensures Base(h + [to]) == to
  {
  }

  lemma OtherStages(s: State, action: OtherAction)
    requires WaitInv(s) && StageInv(s) && OtherStep(s, action).Some? && WritersOrderly(s, action)
    ensures StageInv(OtherStep(s, action).value)
  {
    hide Origins, Memory, RouterReads, StageInv, AllowedTransitions, Base;
    var next := OtherStep(s, action).value;
    OtherWaits(s, action);
    OtherExtends(s, action);
    if action.MoveRun? {
      OneRunMoved(s, next, action.run, action.to);
    }
    AroundTheLoop(s, next);
  }

  // The loop

  lemma HandleExtends(s: State, action: LoopAction)
    requires s.router.Handling? && LoopStep(s, action).Some? && RowsOfRequests(s)
    ensures var next := LoopStep(s, action).value;
            Extends(s, next) && RowsOfRequests(next) && next.parked == s.parked && next.runs == s.runs
            && next.requests == s.requests && (!action.LoadRun? ==> next.router.PlanRow? || next.router.Answering?)
            && (action.LoadRun? ==>
                  var q := s.router.request;
                  && StatusOf(s, s.requests[q].run).Some?
                  && next.router == RunRead(q, StatusOf(s, s.requests[q].run).value, |s.runs[s.requests[q].run]| - 1))
  {
    hide AutomaticPolicy, IsSolver, IsPortableRun, EqualFold, AllowedTransitions, RunMayAsk;
  }

  lemma HandleStages(s: State, action: LoopAction)
    requires WaitInv(s) && StageInv(s) && s.router.Handling? && LoopStep(s, action).Some?
    requires Origins(LoopStep(s, action).value)
    ensures StageInv(LoopStep(s, action).value)
  {
    hide Origins, Memory, RouterReads, LoopStep, IsSettled;
    HandleExtends(s, action);
    ParkedStay(s, LoopStep(s, action).value);
  }

  lemma ReadingStages(s: State, action: LoopAction)
    requires WaitInv(s) && StageInv(s) && s.router.RunRead? && LoopStep(s, action).Some? && CopyChecked(s, action)
    ensures StageInv(LoopStep(s, action).value)
  {
    hide Origins, RouterReads, IsSettled;
    var next := LoopStep(s, action).value;
    ParkedSame(s, next);
    if action.CopyPrior? {
      RememberedIsParked(s, action.from);
      assert StageIs(s.runs, s.parked[action.from].run, s.parked[action.from].prior.status);
    }
  }

  /** What is parked, and by which attempts, depends on these fields alone. */
  lemma ParkedSame(s: State, next: State)
    requires RowsOfRequests(s) && ParkedStages(s) && next.rows == s.rows && next.requests == s.requests
    requires next.parked == s.parked && next.runs == s.runs && next.ended == s.ended
    ensures RowsOfRequests(next) && ParkedStages(next)
  {
    assert forall a: nat :: AttemptEnded(next, a) == AttemptEnded(s, a);
  }

  lemma CreateStages(s: State, action: LoopAction)
    requires WaitInv(s) && StageInv(s) && s.router.PriorKnown? && LoopStep(s, action).Some?
    requires Origins(LoopStep(s, action).value)
    ensures StageInv(LoopStep(s, action).value)
  {
    hide Origins, Memory, RouterReads, RunMayAsk, IsSettled;
    ParkedStay(s, LoopStep(s, action).value);
  }

  lemma EnterStages(s: State, action: LoopAction)
    requires WaitInv(s) && StageInv(s) && s.router.RowCreated? && LoopStep(s, action).Some?
    requires Origins(LoopStep(s, action).value)
    ensures StageInv(LoopStep(s, action).value)
  {
    hide Origins, Memory, RouterReads, RowsOfRequests, ParkedStages, StageIs, AllowedTransitions, IsSettled;
    var next := LoopStep(s, action).value;
    var q := s.router.request;
    EnterKeepsStages(s, action);
    SameRows(s, next);
    ParkedStay(s, next);
    if action.EnterWait? && Live(next, q) {
      StageStays(s, next, s.requests[q].run, s.router.prior.status);
    }
  }

  lemma SameRows(s: State, next: State)
    requires RowsOfRequests(s) && next.rows == s.rows && next.requests == s.requests
    ensures RowsOfRequests(next)
  {
  }

  lemma EnterKeepsStages(s: State, action: LoopAction)
    requires s.router.RowCreated? && LoopStep(s, action).Some?
    ensures StagesKept(s, LoopStep(s, action).value)
  {
    hide AllowedTransitions, IsSettled;
    if action.EnterWait? && s.router.seen != WaitingApproval {
      StagesDoNotRetire(s.router.seen);
    }
  }

  lemma RegisterStages(s: State, action: LoopAction)
    requires RouterInv(s) && WaitInv(s) && StageInv(s) && s.router.Registering? && LoopStep(s, action).Some?
    ensures StageInv(LoopStep(s, action).value)
  {
    hide Origins, Memory, RouterReads, StageIs, Held, Restorable;
    var next := LoopStep(s, action).value;
    assert forall a: nat :: AttemptEnded(next, a) == AttemptEnded(s, a);
  }

  lemma OtherLoopStages(s: State, action: LoopAction)
    requires WaitInv(s) && StageInv(s) && LoopStep(s, action).Some?
    requires s.router.Idle? || s.router.PlanRow? || s.router.Answering? || s.router.Stopped?
    requires Origins(LoopStep(s, action).value)
    ensures StageInv(LoopStep(s, action).value)
  {
    hide Origins, Memory, RouterReads, IsSettled;
    ParkedStay(s, LoopStep(s, action).value);
  }

  lemma LoopOrigins(s: State, action: LoopAction)
    requires Inv(s) && WaitInv(s) && LoopStep(s, action).Some?
    ensures Origins(LoopStep(s, action).value)
  {
    hide Inv, Origins, Memory, RouterReads, LoopStep;
    LoopWaits(s, action);
  }

  lemma LoopStages(s: State, action: LoopAction)
    requires Inv(s) && WaitInv(s) && StageInv(s) && LoopStep(s, action).Some? && CopyChecked(s, action)
    ensures StageInv(LoopStep(s, action).value)
  {
    hide WaitInv, StageInv, SharedInv, RouterInv, LoopStep;
    LoopOrigins(s, action);
    match s.router
    case Handling(_) => HandleStages(s, action);
    case RunRead(_, _, _) => ReadingStages(s, action);
    case PriorKnown(_, _, _, _) => CreateStages(s, action);
    case RowCreated(_, _, _, _, _) => EnterStages(s, action);
    case Registering(_, _, _) => RegisterStages(s, action);
    case _ => OtherLoopStages(s, action);
  }

  // Main results

  lemma StageStep(s: State, action: Action)
    requires Inv(s) && WaitInv(s) && StageInv(s) && Next(s, action).Some? && Orderly(s, action)
    ensures StageInv(Next(s, action).value)
  {
    hide Inv, WaitInv, StageInv, LoopStep, UserStep, OtherStep;
    match action
    case Loop(loop) => LoopStages(s, loop);
    case User(d, user) => UserStages(s, d, user);
    case Other(other) => OtherStages(s, other);
  }

  lemma {:induction false} StagesInvariant(start: State, schedule: seq<Action>)
    requires Initial(start) && AllOrderly(start, schedule)
    ensures StageInv(After(start, schedule))
    decreases |schedule|
  {
    hide Inv, WaitInv, StageInv, Next, Orderly;
    if schedule == [] {
      StartStages(start);
    } else {
      var before, action := schedule[..|schedule| - 1], schedule[|schedule| - 1];
      forall k | 0 <= k < |before| ensures Orderly(After(start, before[..k]), before[k]) {
        assert before[..k] == schedule[..k];
      }
      StagesInvariant(start, before);
      WaitsInvariant(start, before);
      assert Orderly(After(start, before), action);
      if Next(After(start, before), action).Some? {
        StageStep(After(start, before), action);
      }
    }
  }

  lemma StartStages(start: State)
    requires Initial(start)
    ensures StageInv(start)
  {
  }

  /**
    While writers are orderly and the two checks are made, every restore puts its
    run back into the status its present wait began from, late rows included.
   */
  lemma CheckedRestoresAreRight(start: State, schedule: seq<Action>, d: nat, stageActive: bool)
    requires Initial(start) && AllOrderly(start, schedule)
    requires var s := After(start, schedule);
             && d in s.deciders && s.deciders[d].Decided? && !AttemptEnded(s, s.deciders[d].row)
             && UserStep(s, d, Resume(stageActive)).value.runs != s.runs
    ensures var s := After(start, schedule);
            var run := s.deciders[d].entry.run;
            && StatusOf(s, run) == Some(WaitingApproval) && |s.runs[run]| > 1
            && var h := s.runs[run];
               UserStep(s, d, Resume(stageActive)).value.runs == s.runs[run := h + [h[|h| - 2]]]
  {
    hide After, Inv, WaitInv, AllowedTransitions, Blocked, UserStep, Base;
    WaitsInvariant(start, schedule);
    StagesInvariant(start, schedule);
    var s := After(start, schedule);
    ResumeChangesWaitingRuns(s, d, stageActive);
    LiveEntryIsRight(s, d);
    assert CanTransition(WaitingApproval, s.deciders[d].entry.prior.status) by {
      assert WaitInv(s);
      DecidedEntry(s, d);
    }
    ResumeAnswer(s, d, stageActive);
  }
}
