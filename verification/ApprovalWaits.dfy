/**
  Where the router's priors come from and what becomes of a decided run: when a
  restore ends the wait its status was taken from, when a decided run is
  released, and which rows nobody can decide.
 */
module ApprovalWaits {
  import opened Wrappers
  import opened RunStates
  import opened Schedules
  import opened ApprovalProtocol

  // What the entries say about their waits

  /** How an entry's prior was found, against the revisions of the run and the rows. */
  predicate Found(s: State, a: nat, run: nat, prior: Prior) {
    && a < |s.rows| && s.rows[a].run == run && Restorable(s.runs, run, prior) && s.rows[a].created < |s.runs[run]|
    && match prior.source
       case None => prior.since == prior.read + 1 && s.rows[a].created == prior.read
       case Some(b) =>
         && b < a && Copied(s, run, prior, b)
         && prior.read <= s.rows[a].created
  }

  /** The prior was taken from the entry of row b while the run waited. */
  predicate Copied(s: State, run: nat, prior: Prior, b: nat) {
    && b in s.parked && s.parked[b].run == run && b < |s.rows|
    && s.parked[b].prior.since == prior.since && s.parked[b].prior.status == prior.status
    && s.rows[b].created <= prior.read && prior.since <= prior.read
    && run in s.runs && prior.read < |s.runs[run]| && s.runs[run][prior.read] == WaitingApproval
  }

  predicate Origins(s: State) {
    forall a | a in s.parked :: Found(s, a, s.parked[a].run, s.parked[a].prior)
  }

  /** Entries in use are entries that were made, and a parked row stays in memory while it is pending. */
  predicate Memory(s: State) {
    && (forall a | a in s.pending :: a in s.parked && s.parked[a] == s.pending[a])
    && (forall a | a in s.parked && RowPending(s, a) :: a in s.pending)
    && (forall d | d in s.deciders :: Known(s, s.deciders[d]))
  }

  predicate Known(s: State, pc: DeciderPC) {
    match pc
    case Looked(a, entry, _) => a in s.parked && s.parked[a] == entry
    case Decided(a, entry, _) => a in s.parked && s.parked[a] == entry
    case Resumed(a, entry, _) => a in s.parked && s.parked[a] == entry
    case Forgetting(a) => a in s.parked && !RowPending(s, a)
  }

  /** The handler's reading of its run, and that everything parked for the run is older. */
  predicate ReadRun(s: State, run: nat, seen: RunStatus, revision: nat) {
    && run in s.runs && revision < |s.runs[run]| && s.runs[run][revision] == seen
    && forall a | a in s.parked && s.parked[a].run == run ::
         a < |s.rows| && s.rows[a].created <= revision && s.parked[a].prior.since <= revision
  }

  predicate PriorRead(s: State, run: nat, seen: RunStatus, revision: nat, prior: Prior) {
    if seen == WaitingApproval then
      prior.read == revision && prior.source.Some? && Copied(s, run, prior, prior.source.value)
    else prior == Prior(seen, revision + 1, revision, None)
  }

  /** The handler's row is newer than every parked one. */
  predicate NewestRow(s: State, run: nat, a: nat) {
    a < |s.rows| && s.rows[a].run == run && forall b | b in s.parked :: b < a
  }

  predicate RouterReads(s: State) {
    match s.router
    case RunRead(q, seen, revision) => q < |s.requests| && ReadRun(s, s.requests[q].run, seen, revision)
    case PriorKnown(q, seen, revision, prior) =>
      && q < |s.requests| && ReadRun(s, s.requests[q].run, seen, revision)
      && PriorRead(s, s.requests[q].run, seen, revision, prior)
    case RowCreated(q, seen, revision, prior, a) =>
      && q < |s.requests| && ReadRun(s, s.requests[q].run, seen, revision)
      && PriorRead(s, s.requests[q].run, seen, revision, prior)
      && NewestRow(s, s.requests[q].run, a)
      && revision <= s.rows[a].created < |s.runs[s.requests[q].run]|
    case Registering(q, prior, a) =>
      && q < |s.requests| && NewestRow(s, s.requests[q].run, a) && Found(s, a, s.requests[q].run, prior)
    case _ => true
  }

  predicate WaitInv(s: State) {
    Origins(s) && Memory(s) && RouterReads(s)
  }

  // Steps keep it

  /** Rows keep what they were written with. */
  predicate RowsKept(s: State, next: State) {
    && |s.rows| <= |next.rows|
    && forall a | 0 <= a < |s.rows| :: next.rows[a].run == s.rows[a].run && next.rows[a].created == s.rows[a].created
  }

  lemma FoundStays(s: State, next: State, a: nat, run: nat, prior: Prior)
    requires Found(s, a, run, prior) && RowsKept(s, next) && RunsGrow(s.runs, next.runs)
    requires forall b | b in s.parked :: b in next.parked && next.parked[b] == s.parked[b]
    ensures Found(next, a, run, prior)
  {
    hide Reversible;
  }

  lemma OriginsStay(s: State, next: State)
    requires Origins(s) && RowsKept(s, next) && RunsGrow(s.runs, next.runs) && next.parked == s.parked
    ensures Origins(next)
  {
    hide Found;
    forall a | a in next.parked ensures Found(next, a, next.parked[a].run, next.parked[a].prior) {
      FoundStays(s, next, a, s.parked[a].run, s.parked[a].prior);
    }
  }

  lemma RouterReadsStay(s: State, next: State)
    requires RouterReads(s) && RowsKept(s, next) && RunsGrow(s.runs, next.runs)
    requires next.parked == s.parked && next.router == s.router && next.requests == s.requests
        && |next.rows| == |s.rows|
    ensures RouterReads(next)
  {
    hide Restorable, Found;
    if s.router.Registering? {
      FoundStays(s, next, s.router.row, s.requests[s.router.request].run, s.router.prior);
    }
  }

  /** A row that was decided is not pending. */
  predicate Closed(s: State, d: nat) {
    d in s.deciders && Active(s.deciders[d]) ==> !RowPending(s, s.deciders[d].row)
  }

  lemma DecidedIsClosed(s: State, d: nat)
    requires Inv(s)
    ensures Closed(s, d)
  {
    hide Safe, FollowsTable, Restorable;
    if d in s.deciders {
      assert DeciderInv(s, s.deciders[d]);
    }
  }

  /** A step of one decider that closes rows at most. */
  lemma MemoryStays(s: State, next: State, d: nat)
    requires Memory(s) && next.parked == s.parked && next.pending == s.pending
    requires forall a: nat | RowPending(next, a) :: RowPending(s, a)
    requires forall e | e in next.deciders && e != d :: e in s.deciders && next.deciders[e] == s.deciders[e]
    requires d in next.deciders ==> Known(next, next.deciders[d])
    ensures Memory(next)
  {
    forall e | e in next.deciders ensures Known(next, next.deciders[e]) {
      assert e != d ==> Known(s, s.deciders[e]);
    }
  }

  lemma ForgetMemory(s: State, d: nat)
    requires Memory(s) && d in s.deciders && s.deciders[d].Forgetting?
    ensures Memory(UserStep(s, d, Forget).value)
  {
    var next := UserStep(s, d, Forget).value;
    assert Known(s, s.deciders[d]);
    assert forall a: nat :: RowPending(next, a) == RowPending(s, a);
    forall e | e in next.deciders ensures Known(next, next.deciders[e]) {
      assert Known(s, s.deciders[e]);
    }
  }

  lemma UserOpensNoRow(s: State, d: nat, action: UserAction)
    requires UserStep(s, d, action).Some?
    ensures forall a: nat | RowPending(UserStep(s, d, action).value, a) :: RowPending(s, a)
  {
    hide AllowedTransitions, Blocked;
  }

  /** A step that leaves the loop alone; rows and runs keep what they had. */
  predicate LeavesLoop(s: State, next: State) {
    && RowsKept(s, next) && RunsGrow(s.runs, next.runs) && |next.rows| == |s.rows|
    && next.parked == s.parked && next.router == s.router && next.requests == s.requests
  }

  lemma DecideFrame(s: State, d: nat, a: nat, entry: Entry, approve: bool, stageActive: bool)
    ensures LeavesLoop(s, DecideActive(s, d, a, entry, approve, stageActive))
  {
  }

  lemma ResumeFrame(s: State, d: nat, a: nat, entry: Entry, approve: bool, stageActive: bool)
    ensures LeavesLoop(s, ResumeAfter(s, d, a, entry, approve, stageActive))
  {
    hide AllowedTransitions, Blocked;
  }

  lemma UserFrame(s: State, d: nat, action: UserAction)
    requires UserStep(s, d, action).Some?
    ensures LeavesLoop(s, UserStep(s, d, action).value)
  {
    hide DecideActive, ResumeAfter;
    if d in s.deciders {
      match s.deciders[d]
      case Looked(a, entry, approve) =>
        if action.DecideRow? {
          DecideFrame(s, d, a, entry, approve, action.stageActive);
        }
      case Decided(a, entry, approve) =>
        if action.Resume? {
          ResumeFrame(s, d, a, entry, approve, action.stageActive);
        }
      case _ =>
    }
  }

  lemma UserKnown(s: State, d: nat, action: UserAction)
    requires Memory(s) && Closed(s, d) && UserStep(s, d, action).Some? && !action.Forget?
    ensures var next := UserStep(s, d, action).value;
            && next.pending == s.pending && (d in next.deciders ==> Known(next, next.deciders[d]))
            && forall e | e in next.deciders && e != d :: e in s.deciders && next.deciders[e] == s.deciders[e]
  {
    hide AllowedTransitions, Blocked;
    if d in s.deciders {
      assert Known(s, s.deciders[d]);
    }
  }

  lemma UserMemory(s: State, d: nat, action: UserAction)
    requires Memory(s) && Closed(s, d) && UserStep(s, d, action).Some?
    ensures Memory(UserStep(s, d, action).value)
  {
    if action.Forget? {
      ForgetMemory(s, d);
    } else {
      hide Memory, Closed, UserStep, Known;
      UserFrame(s, d, action);
      UserOpensNoRow(s, d, action);
      UserKnown(s, d, action);
      MemoryStays(s, UserStep(s, d, action).value, d);
    }
  }

  lemma UserWaits(s: State, d: nat, action: UserAction)
    requires Inv(s) && WaitInv(s) && UserStep(s, d, action).Some?
    ensures WaitInv(UserStep(s, d, action).value)
  {
    hide Inv, Origins, Memory, RouterReads, UserStep, RowsKept, RunsGrow;
    var next := UserStep(s, d, action).value;
    DecidedIsClosed(s, d);
    UserMemory(s, d, action);
    UserFrame(s, d, action);
    OriginsStay(s, next);
    RouterReadsStay(s, next);
  }

  lemma OtherWaits(s: State, action: OtherAction)
    requires WaitInv(s) && OtherStep(s, action).Some?
    ensures WaitInv(OtherStep(s, action).value)
  {
    hide Found, RouterReads, AllowedTransitions, Origins;
    var next := OtherStep(s, action).value;
    OriginsStay(s, next);
    RouterReadsStay(s, next);
    assert next.deciders == s.deciders && next.parked == s.parked && next.pending == s.pending;
    assert forall a: nat | RowPending(next, a) :: RowPending(s, a);
    forall e | e in next.deciders ensures Known(next, next.deciders[e]) {
      assert Known(s, s.deciders[e]);
    }
  }

  // The loop

  /** A row that is written is nobody's yet. */
  lemma RowAdded(s: State, row: Row, pc: RouterPC)
    requires Origins(s) && Memory(s)
    ensures var next := s.(rows := s.rows + [row], router := pc);
            Origins(next) && Memory(next) && forall a | a in s.parked :: a < |s.rows|
  {
    var next := s.(rows := s.rows + [row], router := pc);
    OriginsStay(s, next);
    hide Restorable, Copied;
    assert forall a | a in s.parked :: Found(s, a, s.parked[a].run, s.parked[a].prior);
    assert forall a: nat | a < |s.rows| :: RowPending(next, a) == RowPending(s, a);
    forall d | d in next.deciders ensures Known(next, next.deciders[d]) {
      assert Known(s, s.deciders[d]);
    }
  }

  /** A step that changes only where the loop stands and what was noted. */
  lemma RouterMoves(s: State, next: State)
    requires Origins(s) && Memory(s)
    requires next.parked == s.parked && next.pending == s.pending && next.deciders == s.deciders
    requires next.rows == s.rows && RunsGrow(s.runs, next.runs)
    ensures Origins(next) && Memory(next)
  {
    OriginsStay(s, next);
    assert forall a: nat :: RowPending(next, a) == RowPending(s, a);
    forall d | d in next.deciders ensures Known(next, next.deciders[d]) {
      assert Known(s, s.deciders[d]);
    }
  }

  lemma ReadsRun(s: State, run: nat)
    requires Origins(s) && StatusOf(s, run).Some?
    ensures ReadRun(s, run, StatusOf(s, run).value, |s.runs[run]| - 1)
  {
    hide Reversible, Copied;
    assert forall a | a in s.parked :: Found(s, a, s.parked[a].run, s.parked[a].prior);
  }

  lemma HandleWaits(s: State, action: LoopAction)
    requires WaitInv(s) && s.router.Handling? && LoopStep(s, action).Some?
    ensures WaitInv(LoopStep(s, action).value)
  {
    hide Origins, Memory, AutomaticPolicy, IsSolver, IsPortableRun, EqualFold, AllowedTransitions, ReadRun;
    var next := LoopStep(s, action).value;
    if action.CreatePlanned? {
      RowAdded(s, NewRow(s, s.router.request), next.router);
    } else {
      RouterMoves(s, next);
      if action.LoadRun? {
        ReadsRun(s, s.requests[s.router.request].run);
        ReadRunOnly(s, next, s.requests[s.router.request].run);
      }
    }
  }

  /** What was read of a run depends on the runs, the rows and the entries. */
  lemma ReadRunOnly(s: State, next: State, run: nat)
    requires next.runs == s.runs && next.parked == s.parked && next.rows == s.rows
    ensures forall seen, revision :: ReadRun(s, run, seen, revision) == ReadRun(next, run, seen, revision)
  {
  }

  lemma CopyWaits(s: State, from: nat)
    requires WaitInv(s) && s.router.RunRead? && LoopStep(s, CopyPrior(from)).Some?
    ensures WaitInv(LoopStep(s, CopyPrior(from)).value)
  {
    hide Reversible, Known, AllowedTransitions;
    var next := LoopStep(s, CopyPrior(from)).value;
    assert Found(s, from, s.parked[from].run, s.parked[from].prior);
    RouterMoves(s, next);
  }

  lemma PriorWaits(s: State, action: LoopAction)
    requires WaitInv(s) && (s.router.RunRead? || s.router.PriorKnown?) && LoopStep(s, action).Some?
    ensures WaitInv(LoopStep(s, action).value)
  {
    hide Origins, Memory, AllowedTransitions, Restorable;
    var next := LoopStep(s, action).value;
    if action.CopyPrior? {
      CopyWaits(s, action.from);
    } else if action.CreateRow? {
      RowAdded(s, NewRow(s, s.router.request), next.router);
    } else {
      RouterMoves(s, next);
    }
  }

  lemma EnterWaits(s: State, action: LoopAction)
    requires Inv(s) && WaitInv(s) && s.router.RowCreated? && LoopStep(s, action).Some?
    ensures WaitInv(LoopStep(s, action).value)
  {
    hide Origins, Memory, SharedInv, Held, AllowedTransitions;
    var next := LoopStep(s, action).value;
    RouterMoves(s, next);
    if action.EnterWait? && s.router.seen != WaitingApproval {
      WaitingIsReversible(s.router.seen);
    }
  }

  lemma RegisterOrigins(s: State, next: State)
    requires Origins(s) && RouterReads(s) && s.router.Registering? && LoopStep(s, Register) == Some(next)
    ensures Origins(next)
  {
    hide Restorable, Found, Copied;
    var q, a, prior := s.router.request, s.router.row, s.router.prior;
    assert a !in s.parked;
    forall b | b in next.parked ensures Found(next, b, next.parked[b].run, next.parked[b].prior) {
      if b == a {
        FoundStays(s, next, a, s.requests[q].run, prior);
      } else {
        FoundStays(s, next, b, s.parked[b].run, s.parked[b].prior);
      }
    }
  }

  lemma RegisterMemory(s: State, next: State)
    requires Memory(s) && RouterReads(s) && s.router.Registering? && LoopStep(s, Register) == Some(next)
    ensures Memory(next)
  {
    hide Found;
    assert s.router.row !in s.parked;
    assert forall b: nat :: RowPending(next, b) == RowPending(s, b);
    forall d | d in next.deciders ensures Known(next, next.deciders[d]) {
      assert Known(s, s.deciders[d]);
    }
  }

  lemma RegisterWaits(s: State)
    requires WaitInv(s) && s.router.Registering? && LoopStep(s, Register).Some?
    ensures WaitInv(LoopStep(s, Register).value)
  {
    hide Origins, Memory;
    RegisterOrigins(s, LoopStep(s, Register).value);
    RegisterMemory(s, LoopStep(s, Register).value);
  }

  lemma LoopWaits(s: State, action: LoopAction)
    requires Inv(s) && WaitInv(s) && LoopStep(s, action).Some?
    ensures WaitInv(LoopStep(s, action).value)
  {
    hide Inv, Origins, Memory;
    match s.router
    case Handling(_) => HandleWaits(s, action);
    case RunRead(_, _, _) => PriorWaits(s, action);
    case PriorKnown(_, _, _, _) => PriorWaits(s, action);
    case RowCreated(_, _, _, _, _) => EnterWaits(s, action);
    case Registering(_, _, _) => RegisterWaits(s);
    case PlanRow(_, _) => PlanWaits(s, action);
    case Idle => RouterMoves(s, LoopStep(s, action).value);
    case Answering(_, _) => RouterMoves(s, LoopStep(s, action).value);
    case Stopped =>
  }

  lemma PlanWaits(s: State, action: LoopAction)
    requires WaitInv(s) && s.router.PlanRow? && LoopStep(s, action).Some?
    ensures WaitInv(LoopStep(s, action).value)
  {
    hide Restorable, Copied;
    var next := LoopStep(s, action).value;
    OriginsStay(s, next);
    assert forall a: nat | RowPending(next, a) :: RowPending(s, a);
    forall d | d in next.deciders ensures Known(next, next.deciders[d]) {
      assert Known(s, s.deciders[d]);
    }
  }

  lemma WaitsInvariant(start: State, schedule: seq<Action>)
    requires Initial(start)
    ensures Inv(After(start, schedule)) && WaitInv(After(start, schedule))
  {
    hide Inv, WaitInv, Next;
    StartKeeps(start);
    StartWaits(start);
    forall s: State, action | Inv(s) && WaitInv(s) && Next(s, action).Some?
      ensures Inv(Next(s, action).value) && WaitInv(Next(s, action).value)
    {
      StepKeeps(s, action);
      StepWaits(s, action);
    }
    Always(Next, (s: State) => Inv(s) && WaitInv(s), start, schedule);
  }

  lemma StepWaits(s: State, action: Action)
    requires Inv(s) && WaitInv(s) && Next(s, action).Some?
    ensures WaitInv(Next(s, action).value)
  {
    hide Inv, WaitInv, LoopStep, UserStep, OtherStep;
    match action
    case Loop(loop) => LoopWaits(s, loop);
    case User(d, user) => UserWaits(s, d, user);
    case Other(other) => OtherWaits(s, other);
  }

  lemma StartWaits(start: State)
    requires Initial(start)
    ensures WaitInv(start)
  {
  }

  // Which wait an entry belongs to

  /**
    The entry of this row stems from the wait that began at this revision, by
    what the handler read and the store logged. The row that began the wait was
    written at the revision before; a row that joined it was written during the
    wait, after a reading of the run during the wait, and took its prior from an
    entry of the same wait.
   */
  predicate OfWait(rows: seq<Row>, parked: map<nat, Entry>, a: nat, wait: nat)
    decreases a
  {
    && a in parked && a < |rows|
    && match parked[a].prior.source
       case None => rows[a].created + 1 == wait
       case Some(b) => rows[a].created == wait && parked[a].prior.read == wait && b < a && OfWait(rows, parked, b, wait)
  }

  /** The rule is exact for every wait that is not older than the row. */
  lemma {:induction false} WaitOfEntry(s: State, a: nat, wait: nat)
    requires Origins(s) && a in s.parked && a < |s.rows| && s.rows[a].created <= wait
    ensures s.parked[a].prior.since == wait <==> OfWait(s.rows, s.parked, a, wait)
    decreases a
  {
    var prior := s.parked[a].prior;
    assert Found(s, a, s.parked[a].run, prior);
    match prior.source
    case None =>
    case Some(b) =>
      if prior.read == wait && s.rows[a].created == wait {
        WaitOfEntry(s, b, wait);
      } else if OfWait(s.rows, s.parked, a, wait) {
        assert false;
      }
  }

  /** Copying takes the prior of the wait that was read exactly from an entry of that wait. */
  lemma CopiesOfTheWait(start: State, schedule: seq<Action>, from: nat)
    requires Initial(start)
    requires var s := After(start, schedule); s.router.RunRead? && LoopStep(s, CopyPrior(from)).Some?
    ensures var s := After(start, schedule);
            var copied := LoopStep(s, CopyPrior(from)).value.router.prior;
            var run := s.pending[from].run;
            && run in s.runs && 0 < copied.since < |s.runs[run]| && copied.status == s.runs[run][copied.since - 1]
            && (copied.since == s.router.revision <==> OfWait(s.rows, s.parked, from, s.router.revision))
  {
    hide After, Inv, Memory, Reversible;
    WaitsInvariant(start, schedule);
    var s := After(start, schedule);
    RememberedIsParked(s, from);
    assert Found(s, from, s.parked[from].run, s.parked[from].prior);
    WaitOfEntry(s, from, s.router.revision);
  }

  lemma RememberedIsParked(s: State, a: nat)
    requires Memory(s) && a in s.pending
    ensures a in s.parked && s.parked[a] == s.pending[a]
  {
  }

  /** Every entry is of the wait during which, or right before which, its row was written. */
  predicate Exact(s: State) {
    forall a | a in s.parked ::
      && a < |s.rows|
      && (s.parked[a].prior.since == s.rows[a].created || s.parked[a].prior.since == s.rows[a].created + 1)
  }

  /**
    While that is so, one look at the source row tells whether its prior may be
    copied: it was written during the wait that was read, or right before.
   */
  lemma CopyGuard(start: State, schedule: seq<Action>, from: nat)
    requires Initial(start)
    requires var s := After(start, schedule); Exact(s) && s.router.RunRead? && LoopStep(s, CopyPrior(from)).Some?
    ensures var s := After(start, schedule);
            var copied, revision := LoopStep(s, CopyPrior(from)).value.router.prior, s.router.revision;
            && from < |s.rows|
            && (copied.since == revision <==> s.rows[from].created == revision || s.rows[from].created + 1 == revision)
  {
    hide After, AllowedTransitions, Memory, Reversible, RouterInv, SharedInv;
    WaitsInvariant(start, schedule);
    var s := After(start, schedule);
    RememberedIsParked(s, from);
    RunFollowsTable(s, s.pending[from].run);
    assert Found(s, from, s.parked[from].run, s.parked[from].prior);
    NoWaitAfterWait(s.runs[s.pending[from].run], s.parked[from].prior.since, s.router.revision);
  }

  lemma RunFollowsTable(s: State, run: nat)
    requires SharedInv(s) && run in s.runs
    ensures FollowsTable(s.runs[run])
  {
  }

  /** A run never waits twice in a row. */
  lemma NoWaitAfterWait(h: seq<RunStatus>, i: nat, j: nat)
    requires FollowsTable(h) && i < |h| && j < |h| && h[i] == WaitingApproval && h[j] == WaitingApproval
    ensures j != i + 1
  {
    if i + 1 < |h| {
      assert CanTransition(h[i + 1 - 1], h[i + 1]);
    }
  }

  /**
    Parking keeps all entries exact exactly when the run was still at the
    revision that was read when the row was written, and the source passed the guard.
   */
  lemma ParkGuard(start: State, schedule: seq<Action>)
    requires Initial(start)
    requires var s := After(start, schedule); Exact(s) && s.router.Registering? && LoopStep(s, Register).Some?
    ensures var s := After(start, schedule);
            var row, prior := s.router.row, s.router.prior;
            && row < |s.rows|
            && (Exact(LoopStep(s, Register).value) <==>
                  match prior.source
                  case None => true
                  case Some(b) =>
                    && s.rows[row].created == prior.read && b < |s.rows|
                    && (s.rows[b].created == prior.read || s.rows[b].created + 1 == prior.read))
  {
    hide After, AllowedTransitions, Memory, Reversible, RouterInv, SharedInv;
    WaitsInvariant(start, schedule);
    var s := After(start, schedule);
    var q, row, prior := s.router.request, s.router.row, s.router.prior;
    var next := LoopStep(s, Register).value;
    assert next.parked[row] == Entry(q, prior, s.requests[q].run);
    match prior.source
    case None =>
    case Some(b) =>
      RunFollowsTable(s, s.requests[q].run);
      NoWaitAfterWait(s.runs[s.requests[q].run], prior.since, prior.read);
  }

  /** The present wait of a waiting run began at its last revision. */
  function PresentWait(s: State, run: nat): nat
    requires StatusOf(s, run) == Some(WaitingApproval)
  {
    |s.runs[run]| - 1
  }

  /** What the store answers to the resume of a decided request. */
  lemma ResumeAnswer(s: State, d: nat, stageActive: bool)
    requires d in s.deciders && s.deciders[d].Decided?
    requires var entry := s.deciders[d].entry;
             CanTransition(WaitingApproval, entry.prior.status) && StatusOf(s, entry.run) == Some(WaitingApproval)
    ensures var (a, entry) := (s.deciders[d].row, s.deciders[d].entry);
            var next := UserStep(s, d, Resume(stageActive)).value;
            if Blocked(s, entry.run) then
              next.trace == s.trace + [KeptWaiting(a, entry.request)] && next.runs == s.runs
            else if stageActive then
              && next.trace == s.trace + [Released(a, entry.request)]
              && next.runs == s.runs[entry.run := s.runs[entry.run] + [entry.prior.status]]
            else next.trace == s.trace && next.runs == s.runs
  {
    hide Blocked, AllowedTransitions;
  }

  lemma ResumeChangesWaitingRuns(s: State, d: nat, stageActive: bool)
    requires d in s.deciders && s.deciders[d].Decided? && UserStep(s, d, Resume(stageActive)).value.runs != s.runs
    ensures StatusOf(s, s.deciders[d].entry.run) == Some(WaitingApproval)
    ensures !Blocked(s, s.deciders[d].entry.run) && stageActive
  {
    hide Blocked, AllowedTransitions;
  }

  lemma DecidedEntry(s: State, d: nat)
    requires Inv(s) && WaitInv(s) && d in s.deciders && s.deciders[d].Decided?
    ensures var (a, entry) := (s.deciders[d].row, s.deciders[d].entry);
            a in s.parked && s.parked[a] == entry && Found(s, a, entry.run, entry.prior)
    ensures CanTransition(WaitingApproval, s.deciders[d].entry.prior.status)
  {
    hide SharedInv, RouterInv, RouterReads, Copied;
    assert Known(s, s.deciders[d]);
    assert Found(s, s.deciders[d].row, s.deciders[d].entry.run, s.deciders[d].entry.prior);
  }

  /**
    A restore puts the run back into the status before the wait its entry stems
    from. That is the present wait exactly when the rule says so; the status is
    right for the present wait then, and otherwise only where an earlier wait
    happened to begin from the same status.
   */
  lemma RestoresReturnToTheWait(start: State, schedule: seq<Action>, d: nat, stageActive: bool)
    requires Initial(start)
    requires var s := After(start, schedule);
             d in s.deciders && s.deciders[d].Decided? && UserStep(s, d, Resume(stageActive)).value.runs != s.runs
    ensures var s := After(start, schedule);
            var (a, entry) := (s.deciders[d].row, s.deciders[d].entry);
            && StatusOf(s, entry.run) == Some(WaitingApproval)
            && var h, since := s.runs[entry.run], entry.prior.since;
               && 0 < since < |h| && h[since] == WaitingApproval
               && UserStep(s, d, Resume(stageActive)).value.runs == s.runs[entry.run := h + [h[since - 1]]]
               && (since == PresentWait(s, entry.run) <==> OfWait(s.rows, s.parked, a, PresentWait(s, entry.run)))
               && (UserStep(s, d, Resume(stageActive)).value.runs == s.runs[entry.run := h + [h[|h| - 2]]] <==>
                     || OfWait(s.rows, s.parked, a, PresentWait(s, entry.run))
                     || (since < |h| - 1 && h[since - 1] == h[|h| - 2]))
  {
    hide After, Inv, AllowedTransitions, Blocked, Reversible, UserStep, Memory, RouterReads, Copied;
    WaitsInvariant(start, schedule);
    var s := After(start, schedule);
    var pc := s.deciders[d];
    DecidedEntry(s, d);
    ResumeChangesWaitingRuns(s, d, stageActive);
    ResumeAnswer(s, d, stageActive);
    var h, since := s.runs[pc.entry.run], pc.entry.prior.since;
    WaitOfEntry(s, pc.row, |h| - 1);
    AppendedStatus(s.runs, pc.entry.run, h, h[since - 1], h[|h| - 2]);
  }

  lemma AppendedStatus(runs: map<nat, seq<RunStatus>>, run: nat, h: seq<RunStatus>, a: RunStatus, b: RunStatus)
    ensures runs[run := h + [a]] == runs[run := h + [b]] <==> a == b
  {
    assert runs[run := h + [a]][run][|h|] == a && runs[run := h + [b]][run][|h|] == b;
  }

  // When a decided run is released

  predicate HeldByLoop(pc: RouterPC, a: nat) {
    match pc
    case PlanRow(_, row) => row == a
    case RowCreated(_, _, _, _, row) => row == a
    case Registering(_, _, row) => row == a
    case _ => false
  }

  /** A pending row that no user can decide: its request was refused after the row was written. */
  predicate Orphan(s: State, a: nat) {
    RowPending(s, a) && a !in s.parked && !HeldByLoop(s.router, a)
  }

  /**
    While the run waits and a stage is active, a decided request releases it
    exactly when no approval of the run is pending: none of the other owner's, and
    no row that a user can decide, that is in the handler's hands or is an orphan.
   */
  lemma ReleasedExactly(start: State, schedule: seq<Action>, d: nat)
    requires Initial(start)
    requires var s := After(start, schedule);
             d in s.deciders && s.deciders[d].Decided? && StatusOf(s, s.deciders[d].entry.run) == Some(WaitingApproval)
    ensures var s := After(start, schedule);
            var (a, entry) := (s.deciders[d].row, s.deciders[d].entry);
            var next := UserStep(s, d, Resume(true)).value;
            if Blocked(s, entry.run) then
              next.trace == s.trace + [KeptWaiting(a, entry.request)] && next.runs == s.runs
            else
              && next.trace == s.trace + [Released(a, entry.request)]
              && next.runs == s.runs[entry.run := s.runs[entry.run] + [entry.prior.status]]
    ensures var s := After(start, schedule);
            forall run :: Blocked(s, run) <==> s.foreign[run] > 0 || exists b :: Blocking(s, run, b)
  {
    hide After, Origins, RouterReads, Inv, UserStep, Blocked;
    WaitsInvariant(start, schedule);
    var s := After(start, schedule);
    DecidedEntry(s, d);
    ResumeAnswer(s, d, true);
    forall run ensures Blocked(s, run) <==> s.foreign[run] > 0 || exists b :: Blocking(s, run, b) {
      BlockedBy(s, run);
    }
  }

  /** A pending row of the run, and who may close it. */
  predicate Blocking(s: State, run: nat, b: nat) {
    && RowPending(s, b) && s.rows[b].run == run
    && (b in s.pending || HeldByLoop(s.router, b) || Orphan(s, b))
  }

  lemma BlockedBy(s: State, run: nat)
    requires Memory(s)
    ensures Blocked(s, run) <==> s.foreign[run] > 0 || exists b :: Blocking(s, run, b)
  {
    if HasPendingRow(s.rows, run) {
      var b :| 0 <= b < |s.rows| && s.rows[b].run == run && s.rows[b].status == Pending;
      assert Blocking(s, run, b);
    }
  }

  /** Neither the loop nor a user ever closes an orphan. */
  lemma LoopKeepsOrphan(s: State, action: LoopAction, a: nat)
    requires Orphan(s, a) && LoopStep(s, action).Some?
    ensures var next := LoopStep(s, action).value;
            Orphan(next, a) && next.rows[a].run == s.rows[a].run && NoRelease(s, next)
  {
    hide HandleStep, AllowedTransitions, RunMayAsk;
    if s.router.Handling? {
      HandlingKeepsOrphan(s, action, a);
    }
  }

  lemma HandlingKeepsOrphan(s: State, action: LoopAction, a: nat)
    requires s.router.Handling? && Orphan(s, a) && LoopStep(s, action).Some?
    ensures var next := LoopStep(s, action).value;
            Orphan(next, a) && next.rows[a].run == s.rows[a].run && NoRelease(s, next)
  {
    hide AutomaticPolicy, IsSolver, IsPortableRun, EqualFold, AllowedTransitions, RunMayAsk;
  }

  /** The step notes no release. */
  predicate NoRelease(s: State, next: State) {
    || next.trace == s.trace
    || (|next.trace| == |s.trace| + 1 && next.trace[..|s.trace|] == s.trace && !next.trace[|s.trace|].Released?)
  }

  /** The step notes the release of another run. */
  predicate ReleasesAnother(s: State, d: nat, next: State, run: nat) {
    && d in s.deciders && s.deciders[d].Decided? && s.deciders[d].entry.run != run
    && next.trace == s.trace + [Released(s.deciders[d].row, s.deciders[d].entry.request)]
  }

  lemma UserKeepsOrphan(s: State, d: nat, action: UserAction, a: nat)
    requires Memory(s) && Orphan(s, a) && UserStep(s, d, action).Some?
    ensures var next := UserStep(s, d, action).value;
            && Orphan(next, a) && next.rows[a].run == s.rows[a].run
            && (NoRelease(s, next) || ReleasesAnother(s, d, next, s.rows[a].run))
  {
    hide AllowedTransitions;
    if d in s.deciders {
      assert Known(s, s.deciders[d]);
    }
  }

  /** No note from this position on releases the run. */
  predicate NotReleased(s: State, run: nat, from: nat) {
    forall i | from <= i < |s.trace| && s.trace[i].Released? ::
      s.trace[i].row < |s.rows| && s.rows[s.trace[i].row].run != run
  }

  lemma StepReleasesOthers(s: State, action: Action, a: nat, from: nat)
    requires Inv(s) && WaitInv(s) && Orphan(s, a) && !action.Other? && Next(s, action).Some?
    requires from <= |s.trace| && NotReleased(s, s.rows[a].run, from)
    ensures var next := Next(s, action).value;
            Orphan(next, a) && next.rows[a].run == s.rows[a].run && from <= |next.trace|
              && NotReleased(next, s.rows[a].run, from)
  {
    hide SharedInv, RouterInv, Origins, RouterReads, LoopStep, UserStep, Orphan;
    RowsOnlyGrow(s, action);
    match action
    case Loop(loop) =>
      LoopKeepsOrphan(s, loop, a);
    case User(d, user) =>
      UserKeepsOrphan(s, d, user, a);
      if d in s.deciders && s.deciders[d].Decided? {
        DecidedEntry(s, d);
      }
  }

  lemma RowsOnlyGrow(s: State, action: Action)
    requires Next(s, action).Some?
    ensures RowsKept(s, Next(s, action).value)
  {
    hide LoopStep, UserStep, OtherStep;
    match action
    case Loop(loop) => LoopAddsRows(s, loop);
    case User(d, user) => UserFrame(s, d, user);
    case Other(other) => OtherKeepsRows(s, other);
  }

  lemma LoopAddsRows(s: State, action: LoopAction)
    requires LoopStep(s, action).Some?
    ensures RowsKept(s, LoopStep(s, action).value)
  {
    hide AutomaticPolicy, IsSolver, IsPortableRun, EqualFold, AllowedTransitions, RunMayAsk, HandleStep;
    if s.router.Handling? {
      HandlingAddsRows(s, action);
    }
  }

  lemma OtherKeepsRows(s: State, action: OtherAction)
    requires OtherStep(s, action).Some?
    ensures RowsKept(s, OtherStep(s, action).value)
  {
    hide AllowedTransitions;
  }

  lemma HandlingAddsRows(s: State, action: LoopAction)
    requires s.router.Handling? && LoopStep(s, action).Some?
    ensures RowsKept(s, LoopStep(s, action).value)
  {
    hide AutomaticPolicy, IsSolver, IsPortableRun, EqualFold, AllowedTransitions, RunMayAsk;
  }

  /**
    An orphan keeps its run waiting for good: whatever the loop and the users do
    from then on, the row stays pending and no request of the run releases it.
   */
  lemma {:induction false} OrphanBlocksRelease(start: State, schedule: seq<Action>, more: seq<Action>, a: nat)
    requires Initial(start) && Orphan(After(start, schedule), a) && forall action <- more :: !action.Other?
    ensures var s, t := After(start, schedule), After(start, schedule + more);
            && Orphan(t, a) && t.rows[a].run == s.rows[a].run && |s.trace| <= |t.trace|
            && NotReleased(t, s.rows[a].run, |s.trace|)
    decreases |more|
  {
    hide Orphan, Next;
    var s := After(start, schedule);
    if more == [] {
      assert schedule + more == schedule;
    } else {
      var init, action := more[..|more| - 1], more[|more| - 1];
      OrphanBlocksRelease(start, schedule, init, a);
      WaitsInvariant(start, schedule + init);
      assert (schedule + more)[..|schedule + more| - 1] == schedule + init;
      var t := After(start, schedule + init);
      if Next(t, action).Some? {
        StepReleasesOthers(t, action, a, |s.trace|);
      }
    }
  }
}
