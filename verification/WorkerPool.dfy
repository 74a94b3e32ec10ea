/**
  The removal pool of the store's start-up reconciliation: one feeder, an
  unbuffered job channel, workers, and a buffered channel with room for one
  outcome per candidate. Candidates are numbered from zero.
 */
module WorkerPool {
  import opened Wrappers
  import opened Schedules

  const MAX_WORKERS := 16

  function WorkerCount(cpus: int, candidates: nat): (n: nat)
    requires candidates > 0
    ensures 1 <= n <= 16 && n <= candidates
    ensures n < cpus ==> n == 16 || n == candidates
    ensures n > cpus ==> n == 1
  {
    var n := if cpus < 1 then 1 else if cpus > MAX_WORKERS then MAX_WORKERS else cpus;
    if n > candidates then candidates else n
  }

  datatype Outcome = Outcome(candidate: nat, failed: bool)

  datatype Worker =
    | Receiving
    | Removing(candidate: nat)
    | Reporting(outcome: Outcome)
    | Gone

  /**
    next counts the candidates handed to workers, outcomes is the buffered
    channel, and removed lists the candidates whose files are gone, in order.
   */
  datatype State = State(
    total: nat, next: nat, closed: bool, workers: seq<Worker>,
    outcomes: seq<Outcome>, removed: seq<nat>, collected: bool)

  function Start(total: nat, workers: nat): State {
    State(total, 0, false, seq(workers, _ => Receiving), [], [], false)
  }

  datatype Action =
    | HandOver(w: nat)               // feeder and worker meet on the job channel
    | CloseJobs
    | Remove(w: nat, failed: bool)   // or the context was cancelled
    | Report(w: nat)
    | Leave(w: nat)                  // the job channel is closed
    | Collect                        // Wait returned

  function Next(s: State, action: Action): (next: Option<State>) {
    match action
    case HandOver(w) =>
      if s.next < s.total && w < |s.workers| && s.workers[w].Receiving? then
        Some(s.(next := s.next + 1, workers := s.workers[w := Removing(s.next)]))
      else None
    case CloseJobs => if s.next == s.total && !s.closed then Some(s.(closed := true)) else None
    case Remove(w, failed) =>
      if w < |s.workers| && s.workers[w].Removing? then
        var c := s.workers[w].candidate;
        Some(s.(workers := s.workers[w := Reporting(Outcome(c, failed))],
                removed := if failed then s.removed else s.removed + [c]))
      else None
    case Report(w) =>
      // a full channel would block
      if w < |s.workers| && s.workers[w].Reporting? && |s.outcomes| < s.total then
        Some(s.(workers := s.workers[w := Receiving], outcomes := s.outcomes + [s.workers[w].outcome]))
      else None
    case Leave(w) =>
      if w < |s.workers| && s.workers[w].Receiving? && s.closed then Some(s.(workers := s.workers[w := Gone])) else None
    case Collect =>
      if s.closed && !s.collected && forall w | 0 <= w < |s.workers| :: s.workers[w].Gone? then
        Some(s.(collected := true))
      else None
  }

  function After(total: nat, workers: nat, schedule: seq<Action>): State {
    Execute(Next, Start(total, workers), schedule)
  }

  // Where the candidates are

  function Hand(w: Worker): multiset<nat> {
    match w
    case Removing(c) => multiset{c}
    case Reporting(o) => multiset{o.candidate}
    case _ => multiset{}
  }

  function Hands(workers: seq<Worker>): multiset<nat> {
    if workers == [] then multiset{} else Hand(workers[0]) + Hands(workers[1..])
  }

  function Reported(outcomes: seq<Outcome>): multiset<nat> {
    if outcomes == [] then multiset{}
    else Reported(outcomes[..|outcomes| - 1]) + multiset{outcomes[|outcomes| - 1].candidate}
  }

  function UpTo(n: nat): multiset<nat> {
    if n == 0 then multiset{} else UpTo(n - 1) + multiset{n - 1}
  }

  lemma {:induction false} HandsUpdate(workers: seq<Worker>, w: nat, worker: Worker)
    requires w < |workers|
    ensures Hands(workers[w := worker]) + Hand(workers[w]) == Hands(workers) + Hand(worker)
    decreases workers
  {
    if w > 0 {
      assert workers[w := worker][1..] == workers[1..][w - 1 := worker];
      HandsUpdate(workers[1..], w - 1, worker);
      Regroup(Hand(workers[0]), Hands(workers[1..][w - 1 := worker]), Hand(workers[w]), Hands(workers[1..]),
        Hand(worker));
    } else {
      assert workers[w := worker][1..] == workers[1..];
    }
  }

  lemma {:induction false} HandsIdle(n: nat)
    ensures Hands(seq(n, _ => Receiving)) == multiset{}
  {
    if n > 0 {
      assert seq(n, _ => Receiving)[1..] == seq(n - 1, _ => Receiving);
      HandsIdle(n - 1);
    }
  }

  lemma {:induction false} HandIn(workers: seq<Worker>, w: nat)
    requires w < |workers|
    ensures Hand(workers[w]) <= Hands(workers)
    decreases workers
  {
    if w > 0 {
      HandIn(workers[1..], w - 1);
    }
  }

  lemma {:induction false} Sizes(outcomes: seq<Outcome>, n: nat)
    ensures |Reported(outcomes)| == |outcomes| && |UpTo(n)| == n
    decreases |outcomes| + n
  {
    if outcomes != [] {
      Sizes(outcomes[..|outcomes| - 1], n);
    } else if n > 0 {
      Sizes(outcomes, n - 1);
    }
  }

  // The invariant: every candidate handed over is in one pair of hands or has its outcome

  predicate Inv(s: State) {
    && s.next <= s.total && Reported(s.outcomes) + Hands(s.workers) == UpTo(s.next)
    && (s.closed ==> s.next == s.total)
    && (s.collected ==> s.closed && forall w | 0 <= w < |s.workers| :: s.workers[w].Gone?)
    && (forall w | 0 <= w < |s.workers| :: s.workers[w].Gone? ==> s.closed)
  }

  lemma HandOverKeeps(s: State, w: nat)
    requires Inv(s) && Next(s, HandOver(w)).Some?
    ensures Inv(Next(s, HandOver(w)).value)
  {
    hide Hands, UpTo, Reported;
    var next := Next(s, HandOver(w)).value;
    HandsUpdate(s.workers, w, next.workers[w]);
    UpToNext(s.next);
    Exchange(Hands(next.workers), multiset{}, Hands(s.workers), multiset{s.next});
    Regroup(Reported(s.outcomes), Hands(s.workers), multiset{s.next}, Hands(next.workers), multiset{});
  }

  lemma RemoveKeeps(s: State, w: nat, failed: bool)
    requires Inv(s) && Next(s, Remove(w, failed)).Some?
    ensures Inv(Next(s, Remove(w, failed)).value)
  {
    hide Hands, UpTo, Reported;
    var next := Next(s, Remove(w, failed)).value;
    HandsUpdate(s.workers, w, next.workers[w]);
    Exchange(Hands(next.workers), Hand(s.workers[w]), Hands(s.workers), Hand(s.workers[w]));
  }

  lemma ReportKeeps(s: State, w: nat)
    requires Inv(s) && Next(s, Report(w)).Some?
    ensures Inv(Next(s, Report(w)).value)
  {
    hide Hands, UpTo, Reported;
    var next := Next(s, Report(w)).value;
    HandsUpdate(s.workers, w, Receiving);
    ReportedNext(s.outcomes, s.workers[w].outcome);
    Exchange(Hands(s.workers), multiset{}, Hands(next.workers), Hand(s.workers[w]));
    Regroup(Reported(s.outcomes), Hand(s.workers[w]), Hands(next.workers), Hands(s.workers), multiset{});
  }

  lemma LeaveKeeps(s: State, w: nat)
    requires Inv(s) && Next(s, Leave(w)).Some?
    ensures Inv(Next(s, Leave(w)).value)
  {
    hide Hands, UpTo, Reported;
    var next := Next(s, Leave(w)).value;
    HandsUpdate(s.workers, w, Gone);
    Exchange(Hands(next.workers), multiset{}, Hands(s.workers), multiset{});
  }

  lemma StepKeeps(s: State, action: Action)
    requires Inv(s) && Next(s, action).Some?
    ensures Inv(Next(s, action).value)
  {
    match action
    case HandOver(w) => HandOverKeeps(s, w);
    case Remove(w, failed) => RemoveKeeps(s, w, failed);
    case Report(w) => ReportKeeps(s, w);
    case Leave(w) => LeaveKeeps(s, w);
    case _ =>
  }

  lemma Regroup(a: multiset<nat>, x: multiset<nat>, y: multiset<nat>, z: multiset<nat>, u: multiset<nat>)
    requires x + y == z + u
    ensures (a + x) + y == (a + z) + u
  {
    assert (a + x) + y == a + (x + y);
    assert (a + z) + u == a + (z + u);
  }

  lemma Exchange(a: multiset<nat>, x: multiset<nat>, b: multiset<nat>, y: multiset<nat>)
    requires a + x == b + y
    ensures x == y ==> a == b
    ensures x == multiset{} ==> a == b + y
  {
    if x == y {
      assert a == a + x - x == b + y - y == b;
    }
    if x == multiset{} {
      assert a + x == a;
    }
  }

  lemma UpToNext(n: nat)
    ensures UpTo(n + 1) == UpTo(n) + multiset{n}
  {
  }

  lemma ReportedNext(outcomes: seq<Outcome>, o: Outcome)
    ensures Reported(outcomes + [o]) == Reported(outcomes) + multiset{o.candidate}
  {
    assert (outcomes + [o])[..|outcomes|] == outcomes;
  }

  lemma Invariant(total: nat, workers: nat, schedule: seq<Action>)
    ensures Inv(After(total, workers, schedule))
  {
    hide Inv, Next;
    forall s, action | Inv(s) && Next(s, action).Some? ensures Inv(Next(s, action).value) {
      StepKeeps(s, action);
    }
    StartInv(total, workers);
    Always(Next, Inv, Start(total, workers), schedule);
  }

  lemma StartInv(total: nat, workers: nat)
    ensures Inv(Start(total, workers))
  {
    HandsIdle(workers);
  }

  lemma {:induction false} SameSize(total: nat, workers: nat, schedule: seq<Action>)
    ensures |After(total, workers, schedule).workers| == workers && After(total, workers, schedule).total == total
    decreases |schedule|
  {
    if schedule != [] {
      SameSize(total, workers, schedule[..|schedule| - 1]);
    }
  }

  // Main results

  /** A worker with an outcome always finds room for it: the buffered channel never blocks. */
  lemma ReportsNeverBlock(total: nat, workers: nat, schedule: seq<Action>, w: nat)
    requires var s := After(total, workers, schedule); w < |s.workers| && s.workers[w].Reporting?
    ensures Next(After(total, workers, schedule), Report(w)).Some?
  {
    hide After, Hands, Reported;
    Invariant(total, workers, schedule);
    var s := After(total, workers, schedule);
    HandIn(s.workers, w);
    Sizes(s.outcomes, s.next);
    assert |Hands(s.workers)| >= |Hand(s.workers[w])| == 1 by {
      assert Hands(s.workers) == Hand(s.workers[w]) + (Hands(s.workers) - Hand(s.workers[w]));
    }
  }

  /** No deadlock: with at least one worker, some step is possible until the outcomes have been collected. */
  lemma NeverStuck(total: nat, workers: nat, schedule: seq<Action>) returns (action: Action)
    requires workers > 0
    ensures var s := After(total, workers, schedule); !s.collected ==> Next(s, action).Some?
  {
    hide After;
    Invariant(total, workers, schedule);
    SameSize(total, workers, schedule);
    var s := After(total, workers, schedule);
    if w :| 0 <= w < workers && s.workers[w].Reporting? {
      ReportsNeverBlock(total, workers, schedule, w);
      action := Report(w);
    } else if w :| 0 <= w < workers && s.workers[w].Removing? {
      action := Remove(w, false);
    } else if w :| 0 <= w < workers && s.workers[w].Receiving? {
      action := if s.next < s.total then HandOver(w) else if !s.closed then CloseJobs else Leave(w);
    } else {
      assert forall w | 0 <= w < workers :: s.workers[w].Gone?;
      assert s.workers[0].Gone?;
      action := Collect;
    }
  }

  /** Steps a worker still needs before it may leave. */
  function Left(w: Worker): nat {
    match w
    case Receiving => 1
    case Removing(_) => 3
    case Reporting(_) => 2
    case Gone => 0
  }

  function LeftAll(workers: seq<Worker>): nat {
    if workers == [] then 0 else Left(workers[0]) + LeftAll(workers[1..])
  }

  function StepsLeft(s: State): int {
    3 * (s.total - s.next) + LeftAll(s.workers) + (if s.closed then 0 else 1) + (if s.collected then 0 else 1)
  }

  lemma {:induction false} LeftUpdate(workers: seq<Worker>, w: nat, worker: Worker)
    requires w < |workers|
    ensures LeftAll(workers[w := worker]) + Left(workers[w]) == LeftAll(workers) + Left(worker)
    decreases workers
  {
    if w > 0 {
      assert workers[w := worker][1..] == workers[1..][w - 1 := worker];
      LeftUpdate(workers[1..], w - 1, worker);
    } else {
      assert workers[w := worker][1..] == workers[1..];
    }
  }

  /** The pool terminates: every step that is taken is one of a number fixed at the start. */
  lemma EveryStepCounts(s: State, action: Action)
    requires Inv(s) && Next(s, action).Some?
    ensures StepsLeft(Next(s, action).value) == StepsLeft(s) - 1 && StepsLeft(Next(s, action).value) >= 0
  {
    hide Hands, UpTo, Reported, LeftAll;
    StepKeeps(s, action);
    match action
    case HandOver(w) => LeftUpdate(s.workers, w, Removing(s.next));
    case Remove(w, failed) => LeftUpdate(s.workers, w, Reporting(Outcome(s.workers[w].candidate, failed)));
    case Report(w) => LeftUpdate(s.workers, w, Receiving);
    case Leave(w) => LeftUpdate(s.workers, w, Gone);
    case _ =>
  }

  lemma {:induction false} HandsGone(workers: seq<Worker>)
    requires forall w | 0 <= w < |workers| :: workers[w].Gone?
    ensures Hands(workers) == multiset{}
    decreases workers
  {
    if workers != [] {
      HandsGone(workers[1..]);
    }
  }

  lemma {:induction false} ReportedCount(outcomes: seq<Outcome>, candidate: nat)
    ensures Reported(outcomes)[candidate] == |Positions(outcomes, candidate)|
    decreases |outcomes|
  {
    if outcomes != [] {
      var init := outcomes[..|outcomes| - 1];
      ReportedCount(init, candidate);
      var last := |outcomes| - 1;
      assert Positions(outcomes, candidate) ==
             Positions(init, candidate) + (if outcomes[last].candidate == candidate then {last} else {});
    }
  }

  function Positions(outcomes: seq<Outcome>, candidate: nat): set<nat> {
    set i: nat | i < |outcomes| && outcomes[i].candidate == candidate
  }

  lemma {:induction false} UpToCount(n: nat, candidate: nat)
    ensures UpTo(n)[candidate] == if candidate < n then 1 else 0
  {
    if n > 0 {
      UpToCount(n - 1, candidate);
    }
  }

  /** When the outcomes are collected, every candidate has exactly one, and nothing else does. */
  lemma OneOutcomeEach(total: nat, workers: nat, schedule: seq<Action>, candidate: nat)
    requires After(total, workers, schedule).collected
    ensures var s := After(total, workers, schedule);
            |s.outcomes| == total && |Positions(s.outcomes, candidate)| == if candidate < total then 1 else 0
  {
    hide After, Hands, Reported, UpTo;
    Invariant(total, workers, schedule);
    SameSize(total, workers, schedule);
    var s := After(total, workers, schedule);
    HandsGone(s.workers);
    ReportedCount(s.outcomes, candidate);
    UpToCount(total, candidate);
    Sizes(s.outcomes, total);
  }

  // What was removed

  /** The worker or the channel holds the report that this candidate's file is gone. */
  ghost predicate ReportsRemoval(s: State, c: nat) {
    Outcome(c, false) in s.outcomes || Reporting(Outcome(c, false)) in s.workers
  }

  ghost predicate RemovalsReported(s: State) {
    forall c :: c in s.removed <==> ReportsRemoval(s, c)
  }

  lemma RemovalStep(s: State, action: Action)
    requires RemovalsReported(s) && Next(s, action).Some?
    ensures RemovalsReported(Next(s, action).value)
  {
    var next := Next(s, action).value;
    match action
    case HandOver(w) => WorkersChange(s.workers, w, next.workers[w]);
    case Remove(w, _) => WorkersChange(s.workers, w, next.workers[w]);
    case Report(w) => WorkersChange(s.workers, w, Receiving);
    case Leave(w) => WorkersChange(s.workers, w, Gone);
    case _ =>
  }

  lemma WorkersChange(workers: seq<Worker>, w: nat, worker: Worker)
    requires w < |workers|
    ensures forall x :: x in workers[w := worker] ==> x in workers || x == worker
    ensures forall x | x in workers :: x in workers[w := worker] || x == workers[w]
    ensures worker in workers[w := worker]
  {
    var next := workers[w := worker];
    assert next[w] == worker;
    forall x | x in workers ensures x in next || x == workers[w] {
      var i :| 0 <= i < |workers| && workers[i] == x;
      assert i != w ==> next[i] == x;
    }
  }

  lemma RemovalsAlways(total: nat, workers: nat, schedule: seq<Action>)
    ensures RemovalsReported(After(total, workers, schedule))
  {
    hide RemovalsReported, Next;
    forall s: State, action | RemovalsReported(s) && Next(s, action).Some?
      ensures RemovalsReported(Next(s, action).value)
    {
      RemovalStep(s, action);
    }
    NothingRemoved(total, workers);
    Always(Next, RemovalsReported, Start(total, workers), schedule);
  }

  lemma NothingRemoved(total: nat, workers: nat)
    ensures RemovalsReported(Start(total, workers))
  {
  }

  /** When the outcomes are collected, exactly the candidates reported without failure are gone. */
  lemma RemovedExactlyAsReported(total: nat, workers: nat, schedule: seq<Action>, c: nat)
    requires After(total, workers, schedule).collected
    ensures var s := After(total, workers, schedule); c in s.removed <==> Outcome(c, false) in s.outcomes
  {
    hide After;
    RemovalsAlways(total, workers, schedule);
    Invariant(total, workers, schedule);
    var s := After(total, workers, schedule);
    assert ReportsRemoval(s, c) <==> c in s.removed;
  }

  ghost predicate HasOutcome(outcomes: seq<Outcome>, c: nat) {
    exists i :: 0 <= i < |outcomes| && outcomes[i].candidate == c
  }

  /** The outcomes are about different candidates, each of them a real one, and none is missing. */
  lemma OutcomesAreDistinct(total: nat, workers: nat, schedule: seq<Action>)
    requires After(total, workers, schedule).collected
    ensures var outcomes := After(total, workers, schedule).outcomes;
            && (forall i | 0 <= i < |outcomes| :: outcomes[i].candidate < total)
            && (forall i, j | 0 <= i < j < |outcomes| :: outcomes[i].candidate != outcomes[j].candidate)
            && (forall c: nat | c < total :: HasOutcome(outcomes, c))
  {
    hide After;
    var outcomes := After(total, workers, schedule).outcomes;
    forall i | 0 <= i < |outcomes| ensures outcomes[i].candidate < total {
      OneOutcomeEach(total, workers, schedule, outcomes[i].candidate);
      assert i in Positions(outcomes, outcomes[i].candidate);
    }
    forall i, j | 0 <= i < j < |outcomes| ensures outcomes[i].candidate != outcomes[j].candidate {
      OneOutcomeEach(total, workers, schedule, outcomes[i].candidate);
      OnePosition(outcomes, outcomes[i].candidate, i, j);
    }
    forall c: nat | c < total ensures HasOutcome(outcomes, c) {
      OneOutcomeEach(total, workers, schedule, c);
      var i :| i in Positions(outcomes, c);
    }
  }

  lemma OnePosition(outcomes: seq<Outcome>, c: nat, i: nat, j: nat)
    requires i < j < |outcomes| && |Positions(outcomes, c)| <= 1
    ensures !(outcomes[i].candidate == c && outcomes[j].candidate == c)
  {
    if outcomes[i].candidate == c && outcomes[j].candidate == c {
      SizeOfPair(Positions(outcomes, c), i, j);
    }
  }

  lemma SizeOfPair(s: set<nat>, i: nat, j: nat)
    requires i in s && j in s && i != j
    ensures |s| >= 2
  {
    assert s == (s - {i, j}) + {i, j};
  }
}
