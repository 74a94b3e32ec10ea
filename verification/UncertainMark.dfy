/**
  Marking a run uncertain by compare-and-swap while other writers move the same
  run: the retry loop of the approval router against every legal interference.
 */
module UncertainMark {
  import opened Wrappers
  import opened RunStates

  datatype Run = Run(status: RunStatus, revision: nat)

  /** What the store does to a call: answer it, refuse it, or commit it and lose the answer. */
  datatype Fault = NoFault | Refused | AnswerLost

  /** The environment of one store call: foreign writes that land before it, and its fault. */
  datatype Turn = Turn(moves: seq<RunStatus>, fault: Fault)

  datatype Outcome =
    | Done
    | LoadFailed
    | CannotBecomeUncertain(status: RunStatus)
    | TransitionFailed
    | ReloadFailed
    | RetryLimitExceeded

  /**
    One run row. Its history holds the status of every revision it ever had;
    marks are the revisions the router wrote, all others are foreign.
   */
  class RunRow {
    var status: RunStatus
    var revision: nat
    ghost var history: seq<RunStatus>
    ghost var marks: set<nat>

    ghost predicate Valid()
      reads this
    {
      && |history| == revision + 1
      && history[revision] == status
      && IsHistory(history)
    }

    constructor ()
      ensures Valid() && status == Queued && marks == {}
    {
      status, revision, history, marks := Queued, 0, [Queued], {};
    }

    /** One committed write. */
    method Write(to: RunStatus, ghost mark: bool)
      requires Valid() && Step(status, to)
      modifies this
      ensures Valid()
      ensures history == old(history) + [to]
      ensures marks == if mark then old(marks) + {revision} else old(marks)
    {
      status, revision, history := to, revision + 1, history + [to];
      marks := if mark then marks + {revision} else marks;
    }

    /** Other writers: each move that follows the table is committed, the others are refused. */
    method Interfere(moves: seq<RunStatus>)
      requires Valid()
      modifies this
      ensures Valid() && old(history) <= history && marks == old(marks)
      ensures moves == [] ==> history == old(history)
    {
      for k := 0 to |moves|
        invariant Valid() && old(history) <= history && marks == old(marks)
        invariant k == 0 ==> history == old(history)
      {
        if Step(status, moves[k]) {
          Write(moves[k], false);
        }
      }
    }

    method Load(turn: Turn) returns (run: Option<Run>)
      requires Valid()
      modifies this
      ensures Valid() && old(history) <= history && marks == old(marks)
      ensures turn.moves == [] ==> history == old(history)
      ensures run == if turn.fault == NoFault then Some(Run(status, revision)) else None
    {
      Interfere(turn.moves);
      run := if turn.fault == NoFault then Some(Run(status, revision)) else None;
    }

    /** Commits only on the expected revision and along the table; the answer to a commit may be lost. */
    method TransitionRun(turn: Turn, expected: nat, to: RunStatus) returns (ok: bool, ghost committed: bool)
      requires Valid()
      modifies this
      ensures Valid() && old(history) <= history
      ensures turn.moves == [] ==> |history| == |old(history)| + (if committed then 1 else 0)
      ensures marks == if committed then old(marks) + {revision} else old(marks)
      ensures committed ==>
                && revision == expected + 1 > old(revision)
                && status == to && CanTransition(history[expected], to)
      ensures !committed ==> turn.fault == Refused || expected != revision || !CanTransition(status, to)
      ensures ok <==> committed && turn.fault == NoFault
    {
      Interfere(turn.moves);
      ok, committed := false, false;
      if turn.fault != Refused && expected == revision && CanTransition(status, to) {
        Write(to, true);
        ok, committed := turn.fault == NoFault, true;
      }
    }
  }

  /** At some instant of the call the row had a status with this property. */
  ghost predicate SomeVersion(history: seq<RunStatus>, from: nat, p: RunStatus -> bool) {
    exists i | from <= i < |history| :: p(history[i])
  }

  ghost predicate Quiet(env: nat -> Turn) {
    forall k :: env(k) == Turn([], NoFault)
  }

  ghost predicate Faulty(env: nat -> Turn) {
    exists k :: env(k).fault != NoFault
  }

  /**
    markUncertainCAS: call number k of the store runs in the environment env(k).
    Whatever the others do, the loop writes at most one revision, always
    uncertain and never over a settled status. Success means the run was settled
    at some instant of the call; only a queued run is refused; giving up after
    eight rounds of two store calls each takes eight foreign revisions; every
    other failure is a store fault. calls counts the store calls made.
   */
  method MarkUncertain(row: RunRow, env: nat -> Turn) returns (outcome: Outcome, calls: nat, ghost mark: Option<nat>)
    requires row.Valid()
    modifies row
    ensures row.Valid() && old(row.history) <= row.history
    ensures row.marks == old(row.marks) + (if mark.Some? then {mark.value} else {})
    ensures mark.Some? ==>
              && |old(row.history)| <= mark.value < |row.history|
              && row.history[mark.value] == Uncertain
              && !IsSettled(row.history[mark.value - 1])
    ensures outcome.Done? ==> SomeVersion(row.history, |old(row.history)| - 1, IsSettled)
    ensures outcome.CannotBecomeUncertain? ==>
              && mark.None?
              && outcome.status == Queued
              && SomeVersion(row.history, |old(row.history)| - 1, (s: RunStatus) => s == Queued)
    ensures 1 <= calls <= 17
    ensures outcome.RetryLimitExceeded? ==> mark.None? && calls == 17 && |row.history| >= |old(row.history)| + 8
    ensures outcome.LoadFailed? || outcome.TransitionFailed? || outcome.ReloadFailed? ==> Faulty(env)
    ensures Quiet(env) ==>
              && outcome == (if old(row.status) == Queued then CannotBecomeUncertain(Queued) else Done)
              && row.status ==
                 (if old(row.status) == Queued || IsSettled(old(row.status)) then old(row.status) else Uncertain)
  {
    hide IsHistory, Step, AllowedTransitions;
    mark := None;
    ghost var start := row.history;
    var loaded := row.Load(env(0));
    calls := 1;
    if loaded.None? {
      return LoadFailed, calls, None;
    }
    var current := loaded.value;
    for round := 0 to 8
      invariant row.Valid() && start <= row.history && row.marks == old(row.marks)
      invariant |start| - 1 + round <= current.revision < |row.history|
      invariant row.history[current.revision] == current.status
      invariant calls == 2 * round + 1
      invariant Quiet(env) ==> round == 0 && row.history == start && current == Run(row.status, row.revision)
    {
      MayBecomeUncertain(current.status);
      if IsSettled(current.status) {
        return Done, calls, None;
      }
      if !CanTransition(current.status, Uncertain) {
        return CannotBecomeUncertain(current.status), calls, None;
      }
      var moved, committed := row.TransitionRun(env(calls), current.revision, Uncertain);
      calls := calls + 1;
      mark := if committed then Some(row.revision) else None;
      if moved {
        assert IsSettled(row.history[row.revision]);
        return Done, calls, mark;
      }
      loaded := row.Load(env(calls));
      calls := calls + 1;
      if loaded.None? {
        return ReloadFailed, calls, mark;
      }
      var latest := loaded.value;
      if committed {
        UncertainNeverSucceeds(row.history, mark.value, row.revision);
      }
      if IsSettled(latest.status) {
        return Done, calls, mark;
      }
      if latest.revision == current.revision {
        return TransitionFailed, calls, mark;
      }
      current := latest;
    }
    return RetryLimitExceeded, calls, None;
  }
}
