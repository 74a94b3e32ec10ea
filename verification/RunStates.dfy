/**
  The run status table and what holds of every run that follows it.
 */
module RunStates {

  datatype RunStatus =
    | Queued | Planning | Collecting | Synthesizing | Reviewing | Revising | WaitingApproval
    | Succeeded | QualityFailed | Failed | Cancelled | Interrupted | Uncertain

  function AllowedTransitions(from: RunStatus): set<RunStatus> {
    match from
    case Queued => {Planning, Failed, Cancelled}
    case Planning => {Collecting, WaitingApproval, Failed, Cancelled, Interrupted, Uncertain}
    case Collecting => {Synthesizing, WaitingApproval, Failed, Cancelled, Interrupted, Uncertain}
    case Synthesizing => {Reviewing, WaitingApproval, Failed, Cancelled, Interrupted, Uncertain}
    case Reviewing => {Succeeded, Revising, Planning, QualityFailed, Failed, Cancelled, Interrupted, Uncertain}
    case Revising => {Reviewing, WaitingApproval, Failed, Cancelled, Interrupted, Uncertain}
    case WaitingApproval =>
      {Planning, Collecting, Synthesizing, Reviewing, Revising, Failed, Cancelled, Interrupted, Uncertain}
    case Interrupted => {Planning, Collecting, Synthesizing, Reviewing, Revising, Cancelled}
    case Uncertain => {Cancelled, Failed}
    case _ => {}
  }

  predicate CanTransition(from: RunStatus, to: RunStatus) {
    to in AllowedTransitions(from)
  }

  predicate IsTerminal(status: RunStatus) {
    status in {Succeeded, QualityFailed, Failed, Cancelled}
  }

  function RecoveryStatus(externalSideEffects: bool): RunStatus {
    if externalSideEffects then Uncertain else Interrupted
  }

  /** A status that an uncertainty mark leaves alone. */
  predicate IsSettled(status: RunStatus) {
    IsTerminal(status) || status == Uncertain || status == Interrupted
  }

  // The table by kinds of moves

  /** A stage is being worked on. */
  predicate Works(status: RunStatus) {
    status in {Planning, Collecting, Synthesizing, Reviewing, Revising}
  }

  /** The work goes on: from stage to stage, after a review into a revision, to the end or back to planning. */
  predicate Advances(from: RunStatus, to: RunStatus) {
    || (from == Queued && to == Planning) || (from == Planning && to == Collecting)
    || (from == Collecting && to == Synthesizing) || (from == Synthesizing && to == Reviewing)
    || (from == Reviewing && to in {Succeeded, Revising, Planning, QualityFailed})
    || (from == Revising && to == Reviewing)
  }

  /** The run is paused for an approval, in any stage but a review. */
  predicate Pauses(from: RunStatus, to: RunStatus) {
    Works(from) && from != Reviewing && to == WaitingApproval
  }

  /** A paused or interrupted run goes back to any stage. */
  predicate GoesOn(from: RunStatus, to: RunStatus) {
    from in {WaitingApproval, Interrupted} && Works(to)
  }

  /** The run is given up: cancelled as long as it is not over, failed unless it was interrupted. */
  predicate GivesUp(from: RunStatus, to: RunStatus) {
    || (to == Cancelled && !IsTerminal(from))
    || (to == Failed && !IsTerminal(from) && from != Interrupted)
  }

  /** A run that is worked on or waits breaks off. */
  predicate BreaksOff(from: RunStatus, to: RunStatus) {
    (Works(from) || from == WaitingApproval) && to in {Interrupted, Uncertain}
  }

  /** The table allows exactly these moves. */
  lemma TransitionsByKind(from: RunStatus, to: RunStatus)
    ensures CanTransition(from, to) <==>
            Advances(from, to) || Pauses(from, to) || GoesOn(from, to) || GivesUp(from, to) || BreaksOff(from, to)
  {
  }

  // Histories

  /** A new version of a run either keeps its status or follows the table. */
  predicate Step(from: RunStatus, to: RunStatus) {
    from == to || CanTransition(from, to)
  }

  predicate IsHistory(h: seq<RunStatus>) {
    forall i | 0 < i < |h| :: Step(h[i - 1], h[i])
  }

  /** A history whose every new version changes the status along the table. */
  predicate FollowsTable(h: seq<RunStatus>) {
    forall i | 0 < i < |h| :: CanTransition(h[i - 1], h[i])
  }

  ghost predicate Reaches(from: RunStatus, to: RunStatus) {
    exists h :: IsHistory(h) && |h| > 0 && h[0] == from && h[|h| - 1] == to
  }

  /** Terminal statuses are exactly the ones without a way out. */
  lemma TerminalExactlyWithoutExit(s: RunStatus)
    ensures IsTerminal(s) <==> forall t :: !CanTransition(s, t)
  {
    if !IsTerminal(s) {
      assert CanTransition(s, Cancelled) || CanTransition(s, Failed);
    }
  }

  /** A terminal status is the last one of its run. */
  lemma {:induction false} TerminalIsFinal(h: seq<RunStatus>, i: nat, j: nat)
    requires IsHistory(h) && i <= j < |h| && IsTerminal(h[i])
    ensures h[j] == h[i]
    decreases j
  {
    if i < j {
      TerminalIsFinal(h, i, j - 1);
      assert Step(h[j - 1], h[j]);
    }
  }

  /** After uncertain come only uncertain, failed and cancelled. */
  lemma {:induction false} UncertainNeverSucceeds(h: seq<RunStatus>, i: nat, j: nat)
    requires IsHistory(h) && i <= j < |h| && h[i] == Uncertain
    ensures h[j] in {Uncertain, Failed, Cancelled}
    decreases j
  {
    if i < j {
      UncertainNeverSucceeds(h, i, j - 1);
      assert Step(h[j - 1], h[j]);
    }
  }

  /** A run that has succeeded was under review in the version before. */
  lemma {:induction false} SucceededOnlyFromReviewing(h: seq<RunStatus>, j: nat) returns (i: nat)
    requires IsHistory(h) && j < |h| && h[0] != Succeeded && h[j] == Succeeded
    ensures i + 1 <= j && h[i] == Reviewing
    ensures forall k | i < k <= j :: h[k] == Succeeded
    decreases j
  {
    assert Step(h[j - 1], h[j]);
    if h[j - 1] == Succeeded {
      i := SucceededOnlyFromReviewing(h, j - 1);
    } else {
      i := j - 1;
    }
  }

  lemma Arrive(h: seq<RunStatus>)
    requires IsHistory(h) && |h| > 0
    ensures Reaches(h[0], h[|h| - 1])
  {
  }

  /** The status after this one on a way to success. */
  function NextToSuccess(s: RunStatus): RunStatus {
    match s
    case Queued => Planning
    case Planning => Collecting
    case Collecting => Synthesizing
    case Reviewing | Succeeded => Succeeded
    case _ => Reviewing
  }

  /** Success can be reached from every status but uncertain and the failed ends. */
  lemma SuccessReachable(s: RunStatus)
    ensures Reaches(s, Succeeded) <==> s !in {Uncertain, QualityFailed, Failed, Cancelled}
  {
    if s in {Uncertain, QualityFailed, Failed, Cancelled} {
      if Reaches(s, Succeeded) {
        var h :| IsHistory(h) && |h| > 0 && h[0] == s && h[|h| - 1] == Succeeded;
        if s == Uncertain {
          UncertainNeverSucceeds(h, 0, |h| - 1);
        } else {
          TerminalIsFinal(h, 0, |h| - 1);
        }
      }
    } else {
      WayToSuccess(s);
    }
  }

  lemma WayToSuccess(s: RunStatus)
    requires s !in {Uncertain, QualityFailed, Failed, Cancelled}
    ensures Reaches(s, Succeeded)
  {
    var s1 := NextToSuccess(s);
    var s2 := NextToSuccess(s1);
    var s3 := NextToSuccess(s2);
    var s4 := NextToSuccess(s3);
    var way := [s, s1, s2, s3, s4, NextToSuccess(s4)];
    assert Step(s, s1) && Step(s1, s2) && Step(s2, s3) && Step(s3, s4);
    Arrive(way);
  }

  /** A status that may wait for approval may be restored afterwards, and is never reviewing. */
  lemma WaitingIsReversible(s: RunStatus)
    ensures CanTransition(s, WaitingApproval) ==> CanTransition(WaitingApproval, s) && s != Reviewing
    ensures CanTransition(s, WaitingApproval) <==> s in {Planning, Collecting, Synthesizing, Revising}
  {
  }

  /**
    Recovery after a restart follows the table from every status in which a stage
    can be active, and leaves success reachable exactly when nothing left the machine.
   */
  lemma RecoveryKeepsTheTable(s: RunStatus, externalSideEffects: bool)
    requires !IsSettled(s) && s != Queued
    ensures CanTransition(s, RecoveryStatus(externalSideEffects))
    ensures Reaches(RecoveryStatus(externalSideEffects), Succeeded) <==> !externalSideEffects
  {
    SuccessReachable(RecoveryStatus(externalSideEffects));
  }

  /** Everything but a queued or settled run may become uncertain. */
  lemma MayBecomeUncertain(s: RunStatus)
    ensures CanTransition(s, Uncertain) <==> !IsSettled(s) && s != Queued
  {
  }
}
