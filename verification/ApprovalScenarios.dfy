/**
  Complete exchanges in the approval protocol, and schedules in which a run is
  not released although every request in memory was decided.
 */
module ApprovalScenarios {
  import opened Wrappers
  import opened RunStates
  import opened Schedules
  import opened ApprovalProtocol
  import opened ApprovalWaits

  /** A request of stage attempt x that every policy leaves to the user. */
  function Asking(run: nat, x: nat): Request {
    Request(run, x, FileChange)
  }

  // Parking: the run is read, then the row is written

  function Reading(run: nat, x: nat): seq<Action> {
    [Loop(Deliver(Asking(run, x))), Loop(LoadRun), Loop(KeepPrior)]
  }

  function Joining(run: nat, from: nat, x: nat): seq<Action> {
    [Loop(Deliver(Asking(run, x))), Loop(LoadRun), Loop(CopyPrior(from))]
  }

  const WRITING := [Loop(CreateRow), Loop(EnterWait), Loop(Register)]

  function Deciding(d: nat, row: nat, approve: bool): seq<Action> {
    [User(d, Look(row, approve)), User(d, DecideRow(true)), User(d, Resume(true))]
  }

  function Closing(d: nat): seq<Action> {
    [User(d, Acknowledge), User(d, Forget)]
  }

  function ReadState(s: State, run: nat, x: nat, seen: RunStatus, prior: Prior): State {
    s.(requests := s.requests + [Asking(run, x)], router := PriorKnown(|s.requests|, seen, prior.read, prior))
  }

  /** The row of request q is written and registered; runs says whether the run began to wait. */
  function WrittenState(s: State, q: nat, prior: Prior, runs: map<nat, seq<RunStatus>>): State
    requires q < |s.requests|
  {
    var a, entry := |s.rows|, Entry(q, prior, s.requests[q].run);
    s.(rows := s.rows + [NewRow(s, q)], runs := runs, router := Idle, trace := s.trace + [Parked(a, q)],
       pending := s.pending[a := entry], parked := s.parked[a := entry])
  }

  // The loop's steps one by one

  lemma Delivers(s: State, r: Request)
    requires s.router == Idle
    ensures Advance(Next, s, Loop(Deliver(r))) ==
            s.(requests := s.requests + [r], router := Handling(|s.requests|))
  {
  }

  lemma Loads(s: State, q: nat, run: nat, x: nat)
    requires s.router == Handling(q) && q < |s.requests| && s.requests[q] == Asking(run, x) && StatusOf(s, run).Some?
    ensures Advance(Next, s, Loop(LoadRun)) == s.(router := RunRead(q, StatusOf(s, run).value, |s.runs[run]| - 1))
  {
  }

  lemma KeepsPrior(s: State, q: nat, seen: RunStatus, revision: nat)
    requires s.router == RunRead(q, seen, revision) && seen != WaitingApproval
    ensures Advance(Next, s, Loop(KeepPrior)) ==
            s.(router := PriorKnown(q, seen, revision, Prior(seen, revision + 1, revision, None)))
  {
  }

  lemma CopiesPrior(s: State, q: nat, revision: nat, from: nat)
    requires s.router == RunRead(q, WaitingApproval, revision) && q < |s.requests|
    requires from in s.pending && s.pending[from].run == s.requests[q].run
    ensures var prior := s.pending[from].prior.(read := revision, source := Some(from));
            Advance(Next, s, Loop(CopyPrior(from))) == s.(router := PriorKnown(q, WaitingApproval, revision, prior))
  {
  }

  lemma CreatesRow(s: State, q: nat, seen: RunStatus, revision: nat, prior: Prior)
    requires s.router == PriorKnown(q, seen, revision, prior) && q < |s.requests| && MayAsk(s, s.requests[q])
    ensures Advance(Next, s, Loop(CreateRow)) ==
            s.(rows := s.rows + [NewRow(s, q)], router := RowCreated(q, seen, revision, prior, |s.rows|))
  {
    hide AllowedTransitions;
  }

  /** The row was written while the run waited, or the wait begins at the revision that was read. */
  predicate MayEnter(s: State, run: nat, seen: RunStatus, revision: nat) {
    || seen == WaitingApproval
    || (CanTransition(seen, WaitingApproval) && StatusOf(s, run) == Some(seen) && |s.runs[run]| == revision + 1)
  }

  function Entered(s: State, run: nat, seen: RunStatus): map<nat, seq<RunStatus>>
    requires seen != WaitingApproval ==> run in s.runs
  {
    if seen == WaitingApproval then s.runs else s.runs[run := s.runs[run] + [WaitingApproval]]
  }

  lemma EntersWait(s: State, q: nat, seen: RunStatus, revision: nat, prior: Prior, a: nat)
    requires s.router == RowCreated(q, seen, revision, prior, a) && q < |s.requests|
    requires MayEnter(s, s.requests[q].run, seen, revision)
    ensures Advance(Next, s, Loop(EnterWait)) ==
            s.(runs := Entered(s, s.requests[q].run, seen), router := Registering(q, prior, a))
  {
    hide AllowedTransitions;
  }

  lemma Registers(s: State, q: nat, prior: Prior, a: nat)
    requires s.router == Registering(q, prior, a) && q < |s.requests|
    ensures var entry := Entry(q, prior, s.requests[q].run);
            Advance(Next, s, Loop(Register)) ==
            s.(trace := s.trace + [Parked(a, q)], pending := s.pending[a := entry],
               parked := s.parked[a := entry], router := Idle)
  {
  }

  /** The loop is idle, and attempt x may ask for an approval that makes its run wait. */
  predicate MayBegin(s: State, run: nat, x: nat) {
    && s.router == Idle && x !in s.ended
    && run in s.runs && s.runs[run] != [] && CanTransition(s.runs[run][|s.runs[run]| - 1], WaitingApproval)
  }

  lemma MayWaitIsNotWaiting(status: RunStatus)
    requires CanTransition(status, WaitingApproval)
    ensures status != WaitingApproval
  {
  }

  lemma Reads(s: State, run: nat, x: nat)
    requires MayBegin(s, run, x)
    ensures var h := s.runs[run];
            var status, revision := h[|h| - 1], |h| - 1;
            After(s, Reading(run, x)) == ReadState(s, run, x, status, Prior(status, |h|, revision, None))
  {
    hide AllowedTransitions, Next;
    var status, p := s.runs[run][|s.runs[run]| - 1], Reading(run, x);
    MayWaitIsNotWaiting(status);
    ThreeSteps(Next, s, p[0], p[1], p[2]);
    Delivers(s, Asking(run, x));
    var s1 := s.(requests := s.requests + [Asking(run, x)], router := Handling(|s.requests|));
    Loads(s1, |s.requests|, run, x);
    var revision := |s.runs[run]| - 1;
    KeepsPrior(s1.(router := RunRead(|s.requests|, status, revision)), |s.requests|, status, revision);
  }

  lemma Joins(s: State, run: nat, from: nat, x: nat)
    requires s.router == Idle && StatusOf(s, run) == Some(WaitingApproval)
    requires from in s.pending && s.pending[from].run == run
    ensures var prior := s.pending[from].prior.(read := |s.runs[run]| - 1, source := Some(from));
            After(s, Joining(run, from, x)) == ReadState(s, run, x, WaitingApproval, prior)
  {
    hide AllowedTransitions, Next;
    var revision, p := |s.runs[run]| - 1, Joining(run, from, x);
    ThreeSteps(Next, s, p[0], p[1], p[2]);
    Delivers(s, Asking(run, x));
    var s1 := s.(requests := s.requests + [Asking(run, x)], router := Handling(|s.requests|));
    Loads(s1, |s.requests|, run, x);
    CopiesPrior(s1.(router := RunRead(|s.requests|, WaitingApproval, revision)), |s.requests|, revision, from);
  }

  lemma Writes(s: State, q: nat, seen: RunStatus, prior: Prior)
    requires s.router == PriorKnown(q, seen, prior.read, prior) && q < |s.requests|
    requires MayAsk(s, s.requests[q]) && MayEnter(s, s.requests[q].run, seen, prior.read)
    ensures After(s, WRITING) == WrittenState(s, q, prior, Entered(s, s.requests[q].run, seen))
  {
    hide AllowedTransitions, Next, RunMayAsk;
    ThreeSteps(Next, s, WRITING[0], WRITING[1], WRITING[2]);
    CreatesRow(s, q, seen, prior.read, prior);
    var s1 := s.(rows := s.rows + [NewRow(s, q)], router := RowCreated(q, seen, prior.read, prior, |s.rows|));
    EntersWait(s1, q, seen, prior.read, prior, |s.rows|);
    var runs := Entered(s, s.requests[q].run, seen);
    Registers(s1.(runs := runs, router := Registering(q, prior, |s.rows|)), q, prior, |s.rows|);
  }

  /** A request of a run that may wait: parked with the run's status, the run waits from the next revision on. */
  function ParkedState(s: State, run: nat, x: nat): State
    requires run in s.runs && s.runs[run] != []
  {
    var h := s.runs[run];
    var prior := Prior(h[|h| - 1], |h|, |h| - 1, None);
    WrittenState(ReadState(s, run, x, prior.status, prior), |s.requests|, prior, s.runs[run := h + [WaitingApproval]])
  }

  lemma ParkRun(s: State, run: nat, x: nat)
    requires MayBegin(s, run, x)
    ensures After(s, Reading(run, x) + WRITING) == ParkedState(s, run, x)
  {
    hide AllowedTransitions, Next;
    var h := s.runs[run];
    var prior := Prior(h[|h| - 1], |h|, |h| - 1, None);
    MayWaitIsNotWaiting(prior.status);
    TwoParts(Next, s, Reading(run, x), WRITING);
    Reads(s, run, x);
    Writes(ReadState(s, run, x, prior.status, prior), |s.requests|, prior.status, prior);
  }

  function Decision(approve: bool): RowStatus {
    if approve then Approved else Denied
  }

  /** The row is decided, its run is released unless another approval is pending. */
  function ReleasedState(s: State, d: nat, row: nat, approve: bool): State
    requires row < |s.rows| && row in s.pending && s.pending[row].run in s.runs
  {
    var entry := s.pending[row];
    var decided := s.(rows := s.rows[row := s.rows[row].(status := Decision(approve))],
                      trace := s.trace + [Chosen(row, entry.request, approve)],
                      deciders := s.deciders[d := Resumed(row, entry, approve)]);
    if Blocked(decided, entry.run) then Noted(decided, KeptWaiting(row, entry.request))
    else
      Noted(decided, Released(row, entry.request)).(
        runs := s.runs[entry.run := s.runs[entry.run] + [entry.prior.status]])
  }

  lemma Looks(s: State, d: nat, row: nat, approve: bool)
    requires d !in s.deciders && row in s.pending
    ensures Advance(Next, s, User(d, Look(row, approve))) ==
            s.(deciders := s.deciders[d := Looked(row, s.pending[row], approve)])
  {
  }

  lemma Decides(s: State, d: nat, row: nat, entry: Entry, approve: bool)
    requires d in s.deciders && s.deciders[d] == Looked(row, entry, approve) && RowPending(s, row)
    requires StatusOf(s, s.rows[row].run) == Some(WaitingApproval) && !AttemptEnded(s, row)
    ensures Advance(Next, s, User(d, DecideRow(true))) ==
            s.(rows := s.rows[row := s.rows[row].(status := Decision(approve))],
               trace := s.trace + [Chosen(row, entry.request, approve)],
               deciders := s.deciders[d := Decided(row, entry, approve)])
  {
  }

  lemma Resumes(s: State, d: nat, row: nat, entry: Entry, approve: bool)
    requires d in s.deciders && s.deciders[d] == Decided(row, entry, approve)
    requires StatusOf(s, entry.run) == Some(WaitingApproval) && CanTransition(WaitingApproval, entry.prior.status)
    ensures var resumed := s.(deciders := s.deciders[d := Resumed(row, entry, approve)]);
            Advance(Next, s, User(d, Resume(true))) ==
            if Blocked(s, entry.run) then Noted(resumed, KeptWaiting(row, entry.request))
            else
              Noted(resumed, Released(row, entry.request)).(
                runs := s.runs[entry.run := s.runs[entry.run] + [entry.prior.status]])
  {
    hide AllowedTransitions, Blocked;
  }

  lemma DecideParked(s: State, d: nat, row: nat, approve: bool)
    requires d !in s.deciders && row in s.pending && RowPending(s, row) && !AttemptEnded(s, row)
    requires var entry := s.pending[row];
             && s.rows[row].run == entry.run && StatusOf(s, entry.run) == Some(WaitingApproval)
             && CanTransition(WaitingApproval, entry.prior.status)
    ensures After(s, Deciding(d, row, approve)) == ReleasedState(s, d, row, approve)
  {
    hide AllowedTransitions, Next, Blocked;
    var entry, p := s.pending[row], Deciding(d, row, approve);
    ThreeSteps(Next, s, p[0], p[1], p[2]);
    Looks(s, d, row, approve);
    var s1 := s.(deciders := s.deciders[d := Looked(row, entry, approve)]);
    assert !AttemptEnded(s1, row);
    Decides(s1, d, row, entry, approve);
    var s2 := s1.(rows := s.rows[row := s.rows[row].(status := Decision(approve))],
                  trace := s.trace + [Chosen(row, entry.request, approve)],
                  deciders := s1.deciders[d := Decided(row, entry, approve)]);
    Resumes(s2, d, row, entry, approve);
    SameBlocked(s2, s2.(deciders := s.deciders[d := Resumed(row, entry, approve)]), entry.run);
    assert s2.deciders[d := Resumed(row, entry, approve)] == s.deciders[d := Resumed(row, entry, approve)];
  }

  lemma SameBlocked(s: State, t: State, run: nat)
    requires s.rows == t.rows && s.foreign == t.foreign
    ensures Blocked(s, run) == Blocked(t, run)
  {
  }

  lemma AnswerReleased(s: State, d: nat)
    requires d in s.deciders && s.deciders[d].Resumed?
    ensures var pc := s.deciders[d];
            After(s, Closing(d)) ==
            Noted(s, Answer(pc.entry.request, pc.approve)).(
              pending := s.pending - {pc.row}, deciders := s.deciders - {d})
  {
    var pc := s.deciders[d];
    var p := Closing(d);
    FirstStep(Next, s, p[0], [p[1]]);
    FirstStep(Next, Advance(Next, s, p[0]), p[1], []);
    assert [p[0]] + [p[1]] == p && [p[1]] + [] == [p[1]];
    var s1 := Noted(s, Answer(pc.entry.request, pc.approve)).(deciders := s.deciders[d := Forgetting(pc.row)]);
    assert Advance(Next, s, p[0]) == s1;
    assert s1.deciders - {d} == s.deciders - {d};
  }

  /** The first half: asked, parked, decided, and the run released or still waiting. */
  lemma ParkAndDecide(s: State, run: nat, x: nat, d: nat, approve: bool)
    requires MayBegin(s, run, x) && d !in s.deciders
    ensures var a := |s.rows|;
            var end := After(s, Reading(run, x) + WRITING + Deciding(d, a, approve));
            var h, q, blocked := s.runs[run], |s.requests|, Blocked(s, run);
            && end == ReleasedState(ParkedState(s, run, x), d, a, approve)
            && end.runs == (if blocked then s.runs[run := h + [WaitingApproval]]
                            else s.runs[run := h + [WaitingApproval]][run := h + [WaitingApproval] + [h[|h| - 1]]])
            && end.trace == s.trace + [Parked(a, q)] + [Chosen(a, q, approve)]
                            + [if blocked then KeptWaiting(a, q) else Released(a, q)]
            && (Blocked(end, run) <==> blocked)
  {
    hide AllowedTransitions, Next;
    var h, q, a := s.runs[run], |s.requests|, |s.rows|;
    WaitingIsReversible(h[|h| - 1]);
    TwoParts(Next, s, Reading(run, x) + WRITING, Deciding(d, a, approve));
    ParkRun(s, run, x);
    var parked := ParkedState(s, run, x);
    DecideParked(parked, d, a, approve);
    var row := parked.rows[a].(status := Decision(approve));
    assert parked.rows[a := row] == s.rows + [row];
    RowDecided(s.rows, run, row);
  }

  /**
    A complete exchange from an idle router ends with the answer the user chose
    and leaves nothing behind; it releases its run exactly when no other approval
    of the run was pending.
   */
  lemma CompleteExchange(s: State, run: nat, x: nat, d: nat, approve: bool)
    requires MayBegin(s, run, x) && d !in s.deciders
    ensures var end := After(s, Reading(run, x) + WRITING + Deciding(d, |s.rows|, approve) + Closing(d));
            var h, q, a := s.runs[run], |s.requests|, |s.rows|;
            var blocked := Blocked(s, run);
            && run in end.runs
            && end.runs[run] == h + [WaitingApproval] + (if blocked then [] else [h[|h| - 1]])
            && end.trace == s.trace + [Parked(a, q)] + [Chosen(a, q, approve)]
                            + [if blocked then KeptWaiting(a, q) else Released(a, q)] + [Answer(q, approve)]
            && end.router == Idle && end.pending == s.pending - {a} && d !in end.deciders
            && (Blocked(end, run) <==> blocked)
  {
    hide AllowedTransitions, Next, Blocked;
    ParkAndDecide(s, run, x, d, approve);
    var first := Reading(run, x) + WRITING + Deciding(d, |s.rows|, approve);
    TwoParts(Next, s, first, Closing(d));
    AnswerReleased(After(s, first), d);
    SameBlocked(After(s, first), After(s, first + Closing(d)), run);
  }

  lemma RowDecided(rows: seq<Row>, run: nat, row: Row)
    requires row.status != Pending
    ensures HasPendingRow(rows + [row], run) <==> HasPendingRow(rows, run)
  {
    if a :| 0 <= a < |rows| && rows[a].run == run && rows[a].status == Pending {
      assert (rows + [row])[a] == rows[a];
    }
  }

  lemma PendingAt(rows: seq<Row>, run: nat, a: nat)
    requires a < |rows| && rows[a].run == run && rows[a].status == Pending
    ensures HasPendingRow(rows, run)
  {
  }

  // An orphan

  /** The row is written, but the run cannot begin to wait any more: the request is declined. */
  function Orphaning(run: nat, x: nat): seq<Action> {
    Reading(run, x) + [Loop(CreateRow), Loop(Fail), Loop(Respond(true))]
  }

  lemma OrphanMade(s: State, run: nat, x: nat)
    requires MayBegin(s, run, x) && Origins(s)
    ensures var end := After(s, Orphaning(run, x));
            && Orphan(end, |s.rows|) && HasPendingRow(end.rows, run) && |end.rows| == |s.rows| + 1
            && |end.requests| == |s.requests| + 1 && end.trace == s.trace + [Answer(|s.requests|, false)]
            && end.router == Idle && end.runs == s.runs && end.pending == s.pending && end.deciders == s.deciders
            && end.ended == s.ended
  {
    hide AllowedTransitions, Next, HasPendingRow, Reversible, Copied;
    var q, a, h := |s.requests|, |s.rows|, s.runs[run];
    var prior, p := Prior(h[|h| - 1], |h|, |h| - 1, None), [Loop(CreateRow), Loop(Fail), Loop(Respond(true))];
    assert a in s.parked ==> Found(s, a, s.parked[a].run, s.parked[a].prior);
    TwoParts(Next, s, Reading(run, x), p);
    Reads(s, run, x);
    var s1 := ReadState(s, run, x, prior.status, prior);
    ThreeSteps(Next, s1, p[0], p[1], p[2]);
    CreatesRow(s1, q, prior.status, prior.read, prior);
    var s2 := s1.(rows := s1.rows + [NewRow(s1, q)], router := RowCreated(q, prior.status, prior.read, prior, a));
    Declines(s2);
    PendingAt(s2.rows, run, a);
  }

  lemma Declines(s: State)
    requires s.router.RowCreated?
    ensures Advance(Next, Advance(Next, s, Loop(Fail)), Loop(Respond(true))) ==
            Noted(s, Answer(s.router.request, false)).(router := Idle)
  {
  }

  /** The next request is decided and answered, and its run keeps waiting with nothing to decide in memory. */
  lemma OrphansKeepRunsWaiting(s: State, run: nat, x: nat, d: nat, approve: bool)
    requires MayBegin(s, run, x) && Origins(s) && d !in s.deciders
    ensures var h, q, a := s.runs[run], |s.requests|, |s.rows|;
            var exchange := Reading(run, x) + WRITING + Deciding(d, a + 1, approve) + Closing(d);
            var end := After(s, Orphaning(run, x) + exchange);
            && run in end.runs && end.runs[run] == h + [WaitingApproval]
            && end.trace == s.trace + [Answer(q, false)] + [Parked(a + 1, q + 1)] + [Chosen(a + 1, q + 1, approve)]
                            + [KeptWaiting(a + 1, q + 1)] + [Answer(q + 1, approve)]
            && end.router == Idle && end.pending == s.pending - {a + 1} && Blocked(end, run)
  {
    hide AllowedTransitions, Next;
    OrphanMade(s, run, x);
    var first, second := Orphaning(run, x), Reading(run, x) + WRITING + Deciding(d, |s.rows| + 1, approve) + Closing(d);
    TwoParts(Next, s, first, second);
    CompleteExchange(After(s, first), run, x, d, approve);
  }
}
