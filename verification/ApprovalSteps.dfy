/**
  What single steps of the approval protocol need and change, said of every step
  in every state: what opens and closes rows, marks attempts and moves runs.
 */
module ApprovalSteps {
  import opened Wrappers
  import opened RunStates
  import opened ApprovalProtocol
  import opened ApprovalWaits

  /**
    A row is decided as the user chose exactly when it is pending, its run waits,
    its attempt is open and no collector failed; a pending row is otherwise
    retired, and a row that is not pending is left alone. Nothing else changes.
   */
  lemma DecisionsAreGuarded(s: State, d: nat, stageActive: bool)
    requires d in s.deciders && s.deciders[d].Looked?
    ensures var Looked(a, entry, approve) := s.deciders[d];
            var next := UserStep(s, d, DecideRow(stageActive)).value;
            var granted := stageActive && !AttemptEnded(s, a) && a < |s.rows|
                           && StatusOf(s, s.rows[a].run) == Some(WaitingApproval);
            if !RowPending(s, a) then next == s.(deciders := s.deciders[d := Forgetting(a)])
            else
              && next.rows == s.rows[a := s.rows[a].(status := if granted && approve then Approved else Denied)]
              && next.trace == s.trace + (if granted then [Chosen(a, entry.request, approve)] else [])
              && next.deciders == s.deciders[d := if granted then Decided(a, entry, approve) else Forgetting(a)]
              && next.runs == s.runs && next.pending == s.pending && next.router == s.router
  {
  }

  /** A side effect is marked only for the request in hand and while its attempt is in progress. */
  lemma MarksNeedOpenAttempts(s: State, action: Action, x: nat)
    requires Next(s, action).Some? && Next(s, action).value.trace == s.trace + [Marked(x)]
    ensures s.router.Handling? && s.router.request < |s.requests| && s.requests[s.router.request].attempt == x
    ensures x !in s.ended
  {
    hide LoopStep, UserStep;
    assert (s.trace + [Marked(x)])[|s.trace|] == Marked(x);
    match action
    case Loop(loop) => LoopMarks(s, loop, x);
    case User(d, user) => UsersMarkNothing(s, d, user);
    case Other(_) =>
  }

  lemma LoopMarks(s: State, action: LoopAction, x: nat)
    requires LoopStep(s, action).Some? && LoopStep(s, action).value.trace == s.trace + [Marked(x)]
    ensures s.router.Handling? && s.router.request < |s.requests| && s.requests[s.router.request].attempt == x
    ensures x !in s.ended
  {
    assert (s.trace + [Marked(x)])[|s.trace|] == Marked(x);
    if s.router.Handling? {
      hide AutomaticPolicy, IsSolver, IsPortableRun, EqualFold, RunMayAsk;
    } else {
      hide HandleStep, AllowedTransitions, RunMayAsk;
    }
  }

  lemma UsersMarkNothing(s: State, d: nat, action: UserAction)
    requires UserStep(s, d, action).Some?
    ensures var next := UserStep(s, d, action).value;
            next.trace == s.trace || (|next.trace| == |s.trace| + 1 && !next.trace[|s.trace|].Marked?)
  {
    hide AllowedTransitions, Blocked;
  }

  /** A new row is for the request in hand and pending; it takes an open attempt and a run that may wait. */
  lemma RowsNeedOpenAttempts(s: State, action: Action)
    requires Next(s, action).Some? && |Next(s, action).value.rows| > |s.rows|
    ensures (s.router.Handling? || s.router.PriorKnown?) && s.router.request < |s.requests|
    ensures var request := s.requests[s.router.request];
            && request.attempt !in s.ended && RunMayAsk(s, request.run)
            && Next(s, action).value.rows ==
               s.rows + [Row(s.router.request, request.run, Pending, RevisionOf(s, request.run))]
  {
    hide LoopStep, UserStep;
    match action
    case Loop(loop) => LoopRows(s, loop);
    case User(d, user) => UserFrame(s, d, user);
    case Other(_) =>
  }

  /** What the loop does to the rows: a new one, an approval of the planned one, or nothing. */
  lemma LoopRows(s: State, action: LoopAction)
    requires LoopStep(s, action).Some?
    ensures var next := LoopStep(s, action).value;
            || next.rows == s.rows
            || (&& s.router.PlanRow? && RowPending(s, s.router.row)
                && next.rows == s.rows[s.router.row := s.rows[s.router.row].(status := Approved)])
            || (&& (s.router.Handling? || s.router.PriorKnown?) && s.router.request < |s.requests|
                && var request := s.requests[s.router.request];
                   && request.attempt !in s.ended && RunMayAsk(s, request.run)
                   && next.rows == s.rows + [Row(s.router.request, request.run, Pending, RevisionOf(s, request.run))])
  {
    if s.router.Handling? {
      hide AutomaticPolicy, IsSolver, IsPortableRun, EqualFold, RunMayAsk, RevisionOf;
    } else {
      hide HandleStep, AllowedTransitions, RunMayAsk, RevisionOf;
    }
  }

  lemma UserRows(s: State, d: nat, action: UserAction)
    requires UserStep(s, d, action).Some?
    ensures var next := UserStep(s, d, action).value;
            next.rows == s.rows ||
            exists a: nat, status :: RowPending(s, a) && status != Pending
                                && next.rows == s.rows[a := s.rows[a].(status := status)]
  {
    hide AllowedTransitions, Blocked;
    var next := UserStep(s, d, action).value;
    if next.rows != s.rows {
      var a := s.deciders[d].row;
      assert RowPending(s, a) && next.rows == s.rows[a := s.rows[a].(status := next.rows[a].status)];
    }
  }

  /** A row that was decided or retired never changes again. */
  lemma RowsCloseOnce(s: State, action: Action, a: nat)
    requires Next(s, action).Some? && a < |s.rows|
    ensures var next := Next(s, action).value;
            && a < |next.rows|
            && (s.rows[a].status != Pending ==> next.rows[a] == s.rows[a])
            && next.rows[a] == s.rows[a].(status := next.rows[a].status)
  {
    hide LoopStep, UserStep, AllowedTransitions, RunMayAsk;
    match action
    case Loop(loop) => LoopRows(s, loop);
    case User(d, user) => UserRows(s, d, user);
    case Other(_) =>
  }

  /** When a run is over, breaks off or becomes uncertain, its pending approvals are retired and no others. */
  lemma SettlingRetires(s: State, run: nat, to: RunStatus)
    requires OtherStep(s, MoveRun(run, to)).Some? && (IsTerminal(to) || to == Uncertain || to == Interrupted)
    ensures var next := OtherStep(s, MoveRun(run, to)).value;
            && !Blocked(next, run) && |next.rows| == |s.rows|
            && (forall a | 0 <= a < |s.rows| ::
                  next.rows[a] == if s.rows[a].run == run && s.rows[a].status == Pending
                                  then s.rows[a].(status := Denied) else s.rows[a])
            && (forall other | other != run :: next.foreign[other] == s.foreign[other])
  {
    hide AllowedTransitions;
  }

  /** The run gained this version and no other run moved. */
  predicate Gains(s: State, next: State, run: nat, to: RunStatus) {
    run in s.runs && s.runs[run] != [] && next.runs == s.runs[run := s.runs[run] + [to]]
  }

  /**
    Runs move along the table: into a wait by the request in hand, from the status
    it read; out of a wait by a decided request, into the status it remembers, once
    nothing blocks the run; and by other writers.
   */
  lemma RunsMoveByThese(s: State, action: Action)
    requires Next(s, action).Some? && Next(s, action).value.runs != s.runs
    ensures var next := Next(s, action).value;
            match action
            case Loop(_) =>
              && s.router.RowCreated? && s.router.request < |s.requests|
              && var run := s.requests[s.router.request].run;
                 && Gains(s, next, run, WaitingApproval) && StatusOf(s, run) == Some(s.router.seen)
                 && |s.runs[run]| == s.router.revision + 1 && CanTransition(s.router.seen, WaitingApproval)
            case User(d, _) =>
              && d in s.deciders && s.deciders[d].Decided?
              && var entry := s.deciders[d].entry;
                 && Gains(s, next, entry.run, entry.prior.status) && StatusOf(s, entry.run) == Some(WaitingApproval)
                 && !Blocked(s, entry.run) && CanTransition(WaitingApproval, entry.prior.status)
            case Other(other) =>
              && other.MoveRun? && Gains(s, next, other.run, other.to)
              && CanTransition(StatusOf(s, other.run).value, other.to)
  {
    match action
    case Loop(loop) => LoopMovesRuns(s, loop);
    case User(_, _) => hide LoopStep, AllowedTransitions, Blocked;
    case Other(_) => hide LoopStep, UserStep, AllowedTransitions, RunMayAsk;
  }

  lemma LoopMovesRuns(s: State, action: LoopAction)
    requires LoopStep(s, action).Some? && LoopStep(s, action).value.runs != s.runs
    ensures s.router.RowCreated? && s.router.request < |s.requests|
    ensures var run := s.requests[s.router.request].run;
            && Gains(s, LoopStep(s, action).value, run, WaitingApproval) && StatusOf(s, run) == Some(s.router.seen)
            && |s.runs[run]| == s.router.revision + 1 && CanTransition(s.router.seen, WaitingApproval)
  {
    if s.router.Handling? {
      hide AutomaticPolicy, IsSolver, IsPortableRun, EqualFold, RunMayAsk;
    } else {
      hide HandleStep, AllowedTransitions, RunMayAsk;
    }
  }

  /** The loop stops only after an answer that could not be delivered, and is then never resumed. */
  lemma LoopStopsUndelivered(s: State, action: Action)
    requires Next(s, action).Some?
    ensures s.router != Stopped && Next(s, action).value.router == Stopped ==>
              s.router.Answering? && action == Loop(Respond(false))
    ensures s.router == Stopped ==> Next(s, action).value.router == Stopped
  {
    hide AutomaticPolicy, IsSolver, IsPortableRun, EqualFold, AllowedTransitions, Blocked, RunMayAsk;
  }

  /**
    The handler's verdicts: it accepts with the note that stands for the request,
    or a harmless one without; when it declines it has noted nothing.
   */
  lemma VerdictsAreNoted(s: State, action: LoopAction, accept: bool)
    requires LoopStep(s, action).Some? && !s.router.Idle? && !s.router.Stopped? && s.router.request < |s.requests|
    requires LoopStep(s, action).value.router == Answering(s.router.request, accept)
    ensures var next, request := LoopStep(s, action).value, s.requests[s.router.request];
            if !accept then next.trace == s.trace
            else
              || next.trace == s.trace + [PlanApproved(s.router.request)]
              || (next.trace == s.trace + [Replayed(s.router.request)] && IsSolver(request.surface))
              || (next.trace == s.trace + [Marked(request.attempt)]
                 && (FromBrowser(request.surface) || IsPortableRun(request.surface)))
              || (next.trace == s.trace && Harmless(request.surface))
  {
    if s.router.Handling? {
      PolicyOfSurfaces(s.requests[s.router.request].surface);
      hide AutomaticPolicy, IsSolver, IsPortableRun, EqualFold, RunMayAsk, Harmless, FromBrowser;
    } else {
      hide HandleStep, AllowedTransitions, RunMayAsk, IsSolver, IsPortableRun, Harmless, FromBrowser;
    }
  }

  /** And what it notes for a request it then accepts. */
  lemma NotesAreAccepts(s: State, action: LoopAction)
    requires LoopStep(s, action).Some? && |LoopStep(s, action).value.trace| > |s.trace|
    ensures var next := LoopStep(s, action).value;
            |next.trace| == |s.trace| + 1 &&
            match next.trace[|s.trace|]
            case Marked(_) => s.router.Handling? && next.router == Answering(s.router.request, true)
            case Replayed(q) => s.router == Handling(q) && next.router == Answering(q, true)
            case PlanApproved(q) => s.router.PlanRow? && s.router.request == q && next.router == Answering(q, true)
            case Parked(a, q) =>
              s.router.Registering? && s.router.request == q && next.router == Idle && a in next.pending
            case Answer(q, accept) =>
              s.router == Answering(q, accept) && (next.router == Idle || next.router == Stopped)
            case _ => false
  {
    if s.router.Handling? {
      hide AutomaticPolicy, IsSolver, IsPortableRun, EqualFold, RunMayAsk;
    } else {
      hide HandleStep, AllowedTransitions, RunMayAsk;
    }
  }

  /** The rules for receipts, finished jobs and repeated requests are for solvers only. */
  lemma RulesAreForSolvers(s: State, action: LoopAction)
    requires LoopStep(s, action).Some? && action in {ReadbackOnly, Replay, CreatePlanned, DeniedRetry}
    ensures s.router.Handling? && s.router.request < |s.requests| && IsSolver(s.requests[s.router.request].surface)
    ensures action == CreatePlanned ==> IsScreening(s.requests[s.router.request].surface)
    ensures action in {ReadbackOnly, DeniedRetry} ==>
              LoopStep(s, action).value.router == Answering(s.router.request, false)
  {
    hide AutomaticPolicy, IsPortableRun, RunMayAsk, IsSolver;
    if action == CreatePlanned {
      NamedScreening(s.requests[s.router.request].surface);
    }
  }

  /** The other owner's approvals are written under the same condition, one at a time, and are pending until closed. */
  lemma OtherOwnersRows(s: State, action: Action, run: nat)
    requires Next(s, action).Some?
    ensures var now, later := s.foreign[run], Next(s, action).value.foreign[run];
            && (later > now ==> later == now + 1 && action == Other(AskForeign(run)) && RunMayAsk(s, run))
            && (later < now ==>
                  action == Other(CloseForeign(run)) ||
                  (action.Other? && action.other.MoveRun? && action.other.run == run && Retires(action.other.to)))
  {
    hide HandleStep, AllowedTransitions, Blocked, RunMayAsk;
    if action.Loop? && s.router.Handling? {
      HandlingLeavesOthers(s, action.loop);
    }
  }

  lemma HandlingLeavesOthers(s: State, action: LoopAction)
    requires s.router.Handling? && LoopStep(s, action).Some?
    ensures LoopStep(s, action).value.foreign == s.foreign
  {
    hide AutomaticPolicy, IsSolver, IsPortableRun, EqualFold, RunMayAsk;
  }
}
