/**
  The approval router as interleaved steps: the request loop, any number of
  user decisions, the stage machinery that moves runs and retires approvals.

  Every store call, every critical section of the router's lock and every
  response is one step; what the store answers is chosen by the action.
 */
module ApprovalProtocol {
  import opened Wrappers
  import opened Text
  import opened Schedules
  import opened RunStates

  // Requests and the policy that reads them

  /** What a request asks for, by its method; server and tool as they were sent. */
  datatype Surface =
    | FileChange
    | CommandExecution(strictlyReadOnly: bool)
    | McpTool(server: string, tool: string)
    | OtherMethod

  datatype Request = Request(run: nat, attempt: nat, surface: Surface)

  const INTERNAL_READS := {
    "memory_search", "memory_get", "knowledge_sparql", "knowledge_get", "scholarly_search",
    "tool_package_propose", "tool_catalog", "tool_get", "evidence_capture", "artifact_publish_plan",
    "artifact_publish_evidence", "artifact_publish_report", "artifact_publish_review" }

  const ENGINEERING_READS := { "engineering_capabilities", "engineering_inputs", "engineering_get" }

  const SOLVERS := { "openvsp_wing_aero", "openvsp_modify_wing", "gmsh_wing_mesh", "xfoil_polar", "su2_cfd" }

  /** Equality up to ASCII case, which is strings.EqualFold for words without k and s. */
  predicate EqualFold(s: string, word: string) {
    |s| == |word| && forall i | 0 <= i < |s| :: (if 'A' <= s[i] <= 'Z' then LowerChar(s[i]) else s[i]) == word[i]
  }

  /** The letters agree one by one, up to case. */
  lemma FoldsLetters(s: string, word: string)
    requires forall i | 0 <= i < |word| :: !('A' <= word[i] <= 'Z')
    ensures EqualFold(s, word) <==>
            && |s| == |word|
            && forall i | 0 <= i < |s| ::
                 s[i] == word[i] || ('a' <= word[i] <= 'z' && s[i] as int == word[i] as int - 32)
  {
  }

  datatype Policy = Policy(allowed: bool, external: bool)

  function AutomaticPolicy(surface: Surface): Policy {
    match surface
    case FileChange => Policy(false, true)
    case CommandExecution(strictlyReadOnly) => if strictlyReadOnly then Policy(true, false) else Policy(false, true)
    case McpTool(sentServer, sentTool) =>
      var server, tool := Lower(TrimSpace(sentServer)), Lower(sentTool);
      if server in {"chrome_devtools", "chrome-devtools-mcp"} then Policy(true, true)
      else if server in {"aetherops_internal", "aetherops-internal"} && tool in INTERNAL_READS then Policy(true, false)
      else if server in {"aetherops_engineering", "aetherops-engineering"} && tool in ENGINEERING_READS then
        Policy(true, false)
      else Policy(false, true)
    case OtherMethod => Policy(false, true)
  }

  predicate IsSolver(surface: Surface) {
    && surface.McpTool? && TrimSpace(surface.server) == "aetherops_engineering"
    && Lower(TrimSpace(surface.tool)) in SOLVERS
  }

  predicate IsPortableRun(surface: Surface) {
    && surface.McpTool?
    && Lower(TrimSpace(surface.server)) in {"aetherops_internal", "aetherops-internal"}
    && EqualFold(TrimSpace(surface.tool), "tool_run")
  }

  // Who may be let through, said apart from the policy's branches

  predicate NamesServer(sent: string, names: set<string>) {
    Lower(TrimSpace(sent)) in names
  }

  /** The work an agent does on its own: reading, and the listed calls of the two bundled servers. */
  predicate Harmless(surface: Surface) {
    || (surface.CommandExecution? && surface.strictlyReadOnly)
    || (surface.McpTool? && NamesServer(surface.server, {"aetherops_internal", "aetherops-internal"})
       && Lower(surface.tool) in INTERNAL_READS)
    || (surface.McpTool? && NamesServer(surface.server, {"aetherops_engineering", "aetherops-engineering"})
       && Lower(surface.tool) in ENGINEERING_READS)
  }

  predicate FromBrowser(surface: Surface) {
    surface.McpTool? && NamesServer(surface.server, {"chrome_devtools", "chrome-devtools-mcp"})
  }

  /** The solver call that an approved plan can cover. */
  predicate IsScreening(surface: Surface) {
    IsSolver(surface) && Lower(TrimSpace(surface.tool)) == "xfoil_polar"
  }

  lemma NamedScreening(surface: Surface)
    requires IsSolver(surface) && EqualFold(TrimSpace(surface.tool), "xfoil_polar")
    ensures IsScreening(surface)
  {
    hide TrimSpace;
    assert Lower(TrimSpace(surface.tool)) == "xfoil_polar";
  }

  /** Everything else, unless a plan, a finished job or an installed package covers it. */
  predicate NeedsUser(surface: Surface) {
    !Harmless(surface) && !FromBrowser(surface)
  }

  /** Installed packages run on the internal server only. */
  lemma PackagesAreInternal(surface: Surface)
    requires IsPortableRun(surface)
    ensures surface.McpTool? && NamesServer(surface.server, {"aetherops_internal", "aetherops-internal"})
    ensures Lower(TrimSpace(surface.tool)) == "tool_run" && !FromBrowser(surface) && !IsSolver(surface)
  {
    hide TrimSpace;
    assert Lower("aetherops_engineering") == "aetherops_engineering";
    assert Lower(TrimSpace(surface.tool)) == "tool_run";
  }

  lemma PolicyOfSurfaces(surface: Surface)
    ensures AutomaticPolicy(surface).allowed <==> !NeedsUser(surface)
    ensures AutomaticPolicy(surface).external <==> !Harmless(surface)
  {
  }

  lemma TrimNothing(s: string)
    requires s != "" && !IsSpace(s[0]) && !IsSpace(s[|s| - 1])
    ensures TrimSpace(s) == s
  {
  }

  /** The automatic policy never lets a solver through, nor does an installed package. */
  lemma SolversNeedAuthorization(surface: Surface)
    ensures IsSolver(surface) ==> AutomaticPolicy(surface) == Policy(false, true)
    ensures IsSolver(surface) ==> NeedsUser(surface) && !IsPortableRun(surface)
  {
    hide TrimSpace;
    PolicyOfSurfaces(surface);
    if IsSolver(surface) {
      assert Lower("aetherops_engineering") == "aetherops_engineering";
      var tool := surface.tool;
      if Lower(tool) in ENGINEERING_READS {
        var word := Lower(tool);
        assert word[0] == 'e' && word[|word| - 1] in {'s', 't'};
        assert word[0] == LowerChar(tool[0]) && word[|word| - 1] == LowerChar(tool[|tool| - 1]);
        TrimNothing(tool);
      }
    }
  }

  // State

  datatype RowStatus = Pending | Approved | Denied

  /**
    A durable approval row; its index in the table is its id. created is the
    revision its run had when it was written: the store's event log holds the
    request for approval between the run's transitions.
   */
  datatype Row = Row(request: nat, run: nat, status: RowStatus, created: nat)

  /**
    The status a run is to go back to, and how the handler found it: it had read
    the run at this revision, and took the status from the run itself or from the
    entry of another row. since is the revision of the wait the status comes
    from; the statements below speak of it, no step looks at it.
   */
  datatype Prior = Prior(status: RunStatus, since: nat, read: nat, source: Option<nat>)

  /** What the router remembers about a parked request. */
  datatype Entry = Entry(request: nat, prior: Prior, run: nat)

  datatype RouterPC =
    | Idle
    | Handling(request: nat)
    | PlanRow(request: nat, row: nat)
    | RunRead(request: nat, seen: RunStatus, revision: nat)
    | PriorKnown(request: nat, seen: RunStatus, revision: nat, prior: Prior)
    | RowCreated(request: nat, seen: RunStatus, revision: nat, prior: Prior, row: nat)
    | Registering(request: nat, prior: Prior, row: nat)
    | Answering(request: nat, accept: bool)
    | Stopped

  datatype DeciderPC =
    | Looked(row: nat, entry: Entry, approve: bool)
    | Decided(row: nat, entry: Entry, approve: bool)
    | Resumed(row: nat, entry: Entry, approve: bool)
    | Forgetting(row: nat)

  /** What happened, in order: durable writes, parked requests and responses. */
  datatype Note =
    | Marked(attempt: nat)
    | PlanApproved(request: nat)
    | Replayed(request: nat)
    | Parked(row: nat, request: nat)
    | Chosen(row: nat, request: nat, approve: bool)
    | Released(row: nat, request: nat)      // the resume put the run back
    | KeptWaiting(row: nat, request: nat)   // another approval of the run is pending
    | RestoreRefused(row: nat)
    | Answer(request: nat, accept: bool)

  /**
    ended holds the stage attempts that are no longer in progress, foreign counts
    per run the pending approvals of the other owner, the core authorizer.
   */
  datatype State = State(
    requests: seq<Request>,
    rows: seq<Row>,
    ended: set<nat>,
    foreign: multiset<nat>,
    router: RouterPC,
    pending: map<nat, Entry>,
    parked: map<nat, Entry>,                // every entry the router ever made
    deciders: map<nat, DeciderPC>,
    runs: map<nat, seq<RunStatus>>,
    trace: seq<Note>)

  predicate Initial(s: State) {
    && s.requests == [] && s.rows == [] && s.ended == {} && s.foreign == multiset{} && s.router == Idle
    && s.pending == map[] && s.parked == map[] && s.deciders == map[] && s.trace == []
    && forall r | r in s.runs :: s.runs[r] == [Queued]
  }

  function StatusOf(s: State, run: nat): Option<RunStatus> {
    if run in s.runs && s.runs[run] != [] then Some(s.runs[run][|s.runs[run]| - 1]) else None
  }

  function RevisionOf(s: State, run: nat): nat {
    if StatusOf(s, run).Some? then |s.runs[run]| - 1 else 0
  }

  predicate RowPending(s: State, row: nat) {
    row < |s.rows| && s.rows[row].status == Pending
  }

  predicate HasPendingRow(rows: seq<Row>, run: nat) {
    exists a | 0 <= a < |rows| :: rows[a].run == run && rows[a].status == Pending
  }

  /** What ResumeRunAfterApproval counts: any pending approval of the run keeps it waiting. */
  predicate Blocked(s: State, run: nat) {
    HasPendingRow(s.rows, run) || s.foreign[run] > 0
  }

  predicate RunMayAsk(s: State, run: nat) {
    var status := StatusOf(s, run);
    status.Some? && (status.value == WaitingApproval || CanTransition(status.value, WaitingApproval))
  }

  /** CreateApproval: the attempt is in progress, and its run waits or may begin to wait. */
  predicate MayAsk(s: State, request: Request) {
    request.attempt !in s.ended && RunMayAsk(s, request.run)
  }

  /** The stage attempt that asked for this row is over. */
  predicate AttemptEnded(s: State, row: nat) {
    row < |s.rows| && s.rows[row].request < |s.requests| && s.requests[s.rows[row].request].attempt in s.ended
  }

  function NewRow(s: State, q: nat): Row
    requires q < |s.requests|
  {
    Row(q, s.requests[q].run, Pending, RevisionOf(s, s.requests[q].run))
  }

  // The request loop

  datatype LoopAction =
    | Deliver(arriving: Request)     // the next approval request of the event stream
    | Fail                           // a step of the handler returned an error
    | ReadbackOnly                   // the solver scope allows only receipt readback
    | Replay                         // the exact solver job had already succeeded
    | CreatePlanned                  // an approved plan covers the XFOIL cell: create its row
    | ApprovePlanned
    | GrantPortable                  // an installed tool package grants this exact call
    | Automatic                      // the automatic policy allows the call
    | DeniedRetry                    // a second request after a denial: the stage is failed
    | LoadRun
    | CopyPrior(from: nat)           // the run waits already: take the prior of another parked request
    | KeepPrior
    | CreateRow
    | EnterWait
    | Register
    | Respond(delivered: bool)

  function PolicyOf(s: State, request: nat): Policy
    requires request < |s.requests|
  {
    AutomaticPolicy(s.requests[request].surface)
  }

  function Noted(s: State, note: Note): State {
    s.(trace := s.trace + [note])
  }

  /** One step of Router.Run and handle; None when the step is not the loop's next one. */
  function LoopStep(s: State, action: LoopAction): (next: Option<State>) {
    match s.router
    case Idle =>
      if action.Deliver? then
        Some(s.(requests := s.requests + [action.arriving], router := Handling(|s.requests|)))
      else None
    case Handling(q) => if q < |s.requests| then HandleStep(s, q, action) else None
    case PlanRow(q, a) =>
      if action.Fail? then Some(s.(router := Answering(q, false)))
      else if action.ApprovePlanned? && RowPending(s, a) then
        Some(Noted(s, PlanApproved(q)).(
               rows := s.rows[a := s.rows[a].(status := Approved)], router := Answering(q, true)))
      else None
    case RunRead(q, seen, revision) =>
      if action.Fail? then Some(s.(router := Answering(q, false)))
      else if action.KeepPrior? && seen != WaitingApproval then
        Some(s.(router := PriorKnown(q, seen, revision, Prior(seen, revision + 1, revision, None))))
      else if action.CopyPrior? && seen == WaitingApproval && q < |s.requests| && action.from in s.pending
              && s.pending[action.from].run == s.requests[q].run then
        var prior := s.pending[action.from].prior.(read := revision, source := Some(action.from));
        Some(s.(router := PriorKnown(q, seen, revision, prior)))
      else None
    case PriorKnown(q, seen, revision, prior) =>
      if action.Fail? then Some(s.(router := Answering(q, false)))
      else if action.CreateRow? && q < |s.requests| && MayAsk(s, s.requests[q]) then
        Some(s.(rows := s.rows + [NewRow(s, q)], router := RowCreated(q, seen, revision, prior, |s.rows|)))
      else None
    case RowCreated(q, seen, revision, prior, a) =>
      if action.Fail? then Some(s.(router := Answering(q, false)))
      else if action.EnterWait? && seen == WaitingApproval then Some(s.(router := Registering(q, prior, a)))
      else if action.EnterWait? && CanTransition(seen, WaitingApproval) && q < |s.requests| then
        var run := s.requests[q].run;
        if StatusOf(s, run) == Some(seen) && |s.runs[run]| == revision + 1 then
          Some(s.(runs := s.runs[run := s.runs[run] + [WaitingApproval]], router := Registering(q, prior, a)))
        else None
      else None
    case Registering(q, prior, a) =>
      if action.Register? && q < |s.requests| then
        var entry := Entry(q, prior, s.requests[q].run);
        Some(Noted(s, Parked(a, q)).(pending := s.pending[a := entry], parked := s.parked[a := entry], router := Idle))
      else None
    case Answering(q, accept) =>
      if action.Respond? then
        Some(Noted(s, Answer(q, accept)).(router := if action.delivered then Idle else Stopped))
      else None
    case Stopped => None
  }

  /** The handler's decision before it has written anything. */
  function HandleStep(s: State, q: nat, action: LoopAction): (next: Option<State>)
    requires q < |s.requests|
  {
    var request := s.requests[q];
    var policy := PolicyOf(s, q);
    match action
    case Fail => Some(s.(router := Answering(q, false)))
    case ReadbackOnly => if IsSolver(request.surface) then Some(s.(router := Answering(q, false))) else None
    case Replay =>
      if IsSolver(request.surface) then Some(Noted(s, Replayed(q)).(router := Answering(q, true))) else None
    case CreatePlanned =>
      if && IsSolver(request.surface) && EqualFold(TrimSpace(request.surface.tool), "xfoil_polar")
         && MayAsk(s, request) then
        Some(s.(rows := s.rows + [NewRow(s, q)], router := PlanRow(q, |s.rows|)))
      else None
    case GrantPortable =>
      if IsPortableRun(request.surface) && request.attempt !in s.ended then
        Some(Noted(s, Marked(request.attempt)).(router := Answering(q, true)))
      else None
    case Automatic =>
      if !policy.allowed then None
      else if policy.external then
        if request.attempt in s.ended then None
        else Some(Noted(s, Marked(request.attempt)).(router := Answering(q, true)))
      else Some(s.(router := Answering(q, true)))
    case DeniedRetry =>
      if !policy.allowed && IsSolver(request.surface) then Some(s.(router := Answering(q, false))) else None
    case LoadRun =>
      if !policy.allowed && StatusOf(s, request.run).Some? then
        Some(s.(router := RunRead(q, StatusOf(s, request.run).value, |s.runs[request.run]| - 1)))
      else None
    case _ => None
  }

  // User decisions

  datatype UserAction =
    | Look(id: nat, approve: bool)           // read the router's entry
    | DecideRow(stageActive: bool)           // DecideActiveApproval
    | DecideError                            // any other store error
    | Resume(stageActive: bool)              // ResumeRunAfterApproval
    | ResumeError
    | Acknowledge                            // answer Codex
    | Forget

  function UserStep(s: State, d: nat, action: UserAction): (next: Option<State>) {
    if d !in s.deciders then
      if action.Look? && action.id in s.pending then
        Some(s.(deciders := s.deciders[d := Looked(action.id, s.pending[action.id], action.approve)]))
      else None
    else
      match s.deciders[d]
      case Looked(a, entry, approve) =>
        if action.DecideError? then Some(s.(deciders := s.deciders - {d}))
        else if action.DecideRow? then Some(DecideActive(s, d, a, entry, approve, action.stageActive))
        else None
      case Decided(a, entry, approve) =>
        if action.ResumeError? then Some(s.(deciders := s.deciders[d := Forgetting(a)]))
        else if action.Resume? then Some(ResumeAfter(s, d, a, entry, approve, action.stageActive))
        else None
      case Resumed(a, entry, approve) =>
        if action.Acknowledge? then
          Some(Noted(s, Answer(entry.request, approve)).(deciders := s.deciders[d := Forgetting(a)]))
        else None
      case Forgetting(a) =>
        if action.Forget? then Some(s.(pending := s.pending - {a}, deciders := s.deciders - {d})) else None
  }

  /**
    The row is decided only while it is pending, its run waits and its attempt is
    in progress; otherwise it is retired. stageActive says that no collector of
    the run has failed.
   */
  function DecideActive(s: State, d: nat, a: nat, entry: Entry, approve: bool, stageActive: bool): State {
    if !RowPending(s, a) then s.(deciders := s.deciders[d := Forgetting(a)])
    else if !stageActive || AttemptEnded(s, a) || StatusOf(s, s.rows[a].run) != Some(WaitingApproval) then
      s.(rows := s.rows[a := s.rows[a].(status := Denied)], deciders := s.deciders[d := Forgetting(a)])
    else
      Noted(s, Chosen(a, entry.request, approve)).(
        rows := s.rows[a := s.rows[a].(status := if approve then Approved else Denied)],
        deciders := s.deciders[d := Decided(a, entry, approve)])
  }

  /** Back to the prior status once no approval of the run is pending and some attempt is still in progress. */
  function ResumeAfter(s: State, d: nat, a: nat, entry: Entry, approve: bool, stageActive: bool): State {
    if StatusOf(s, entry.run) != Some(WaitingApproval) then s.(deciders := s.deciders[d := Forgetting(a)])
    else if Blocked(s, entry.run) then
      Noted(s, KeptWaiting(a, entry.request)).(deciders := s.deciders[d := Resumed(a, entry, approve)])
    else if !stageActive then s.(deciders := s.deciders[d := Forgetting(a)])
    else if !CanTransition(WaitingApproval, entry.prior.status) then
      Noted(s, RestoreRefused(a)).(deciders := s.deciders[d := Forgetting(a)])
    else
      Noted(s, Released(a, entry.request)).(
        runs := s.runs[entry.run := s.runs[entry.run] + [entry.prior.status]],
        deciders := s.deciders[d := Resumed(a, entry, approve)])
  }

  // Everything else that touches the store

  datatype OtherAction =
    | MoveRun(run: nat, to: RunStatus)
    | RetireRow(id: nat)
    | EndAttempt(attempt: nat)
    | AskForeign(run: nat)             // the core authorizer writes a row of its own
    | CloseForeign(run: nat)

  /** Statuses whose transition retires the run's pending approvals. */
  predicate Retires(to: RunStatus) {
    IsSettled(to)
  }

  function RetireAll(rows: seq<Row>, run: nat): seq<Row> {
    seq(|rows|, i requires 0 <= i < |rows| =>
      if rows[i].run == run && rows[i].status == Pending then rows[i].(status := Denied) else rows[i])
  }

  /** Other writers move runs along the table, which may retire their pending approvals, and retire single ones. */
  function OtherStep(s: State, action: OtherAction): (next: Option<State>) {
    match action
    case MoveRun(run, to) =>
      var status := StatusOf(s, run);
      if status.Some? && CanTransition(status.value, to) then
        Some(s.(runs := s.runs[run := s.runs[run] + [to]],
                rows := if Retires(to) then RetireAll(s.rows, run) else s.rows,
                foreign := if Retires(to) then s.foreign[run := 0] else s.foreign))
      else None
    case RetireRow(a) =>
      if RowPending(s, a) then Some(s.(rows := s.rows[a := s.rows[a].(status := Denied)])) else None
    case EndAttempt(attempt) => Some(s.(ended := s.ended + {attempt}))
    case AskForeign(run) => if RunMayAsk(s, run) then Some(s.(foreign := s.foreign + multiset{run})) else None
    case CloseForeign(run) => Some(s.(foreign := s.foreign - multiset{run}))
  }

  datatype Action = Loop(loop: LoopAction) | User(d: nat, user: UserAction) | Other(other: OtherAction)

  function Next(s: State, action: Action): Option<State> {
    match action
    case Loop(loop) => LoopStep(s, loop)
    case User(d, user) => UserStep(s, d, user)
    case Other(other) => OtherStep(s, other)
  }

  function After(start: State, schedule: seq<Action>): State {
    Execute(Next, start, schedule)
  }

  // Safety

  predicate Answered(trace: seq<Note>, q: nat) {
    Answer(q, true) in trace || Answer(q, false) in trace
  }

  predicate WasChosen(trace: seq<Note>, a: nat, q: nat) {
    Chosen(a, q, true) in trace || Chosen(a, q, false) in trace
  }

  /** The store was asked to resume the run of this request, and did or found it waiting for another approval. */
  predicate WasResumed(trace: seq<Note>, a: nat, q: nat) {
    Released(a, q) in trace || KeptWaiting(a, q) in trace
  }

  ghost predicate WasParked(trace: seq<Note>, q: nat) {
    exists a :: Parked(a, q) in trace
  }

  ghost predicate ApprovedByUser(trace: seq<Note>, q: nat) {
    exists a :: Chosen(a, q, true) in trace
  }

  /**
    A request may be accepted once something durable stands for it: an approved
    row, or the finished job it replays; for the browser and installed packages
    the mark of its stage will do, and harmless requests need nothing.
   */
  ghost predicate MayAccept(requests: seq<Request>, before: seq<Note>, q: nat) {
    && q < |requests|
    && var request := requests[q];
       || ApprovedByUser(before, q)
       || (IsScreening(request.surface) && PlanApproved(q) in before)
       || (IsSolver(request.surface) && Replayed(q) in before)
       || ((FromBrowser(request.surface) || IsPortableRun(request.surface)) && Marked(request.attempt) in before)
       || Harmless(request.surface)
  }

  /**
    What has to have happened before a note is made. No request is answered
    twice, so none is both accepted and declined; every accept is authorized; a
    parked request is answered as the user chose, after the choice and after its
    run was released or found to wait for another approval; a row is decided
    once; and no restore is illegal.
   */
  ghost predicate Sound(requests: seq<Request>, before: seq<Note>, note: Note) {
    match note
    case Answer(q, accept) =>
      && q < |requests| && !Answered(before, q)
      && (accept ==> MayAccept(requests, before, q))
      && (forall a :: Parked(a, q) in before ==> Chosen(a, q, accept) in before && WasResumed(before, a, q))
    case Parked(a, q) =>
      && q < |requests| && NeedsUser(requests[q].surface)
      && !Answered(before, q) && !WasParked(before, q)
    case Chosen(a, q, approve) => Parked(a, q) in before && !WasChosen(before, a, q) && !Answered(before, q)
    case Released(a, q) => WasChosen(before, a, q) && !Answered(before, q)
    case KeptWaiting(a, q) => WasChosen(before, a, q) && !Answered(before, q)
    case RestoreRefused(a) => false
    case Marked(_) => true
    case PlanApproved(q) => q < |requests| && IsScreening(requests[q].surface) && !WasParked(before, q)
    case Replayed(q) => q < |requests| && IsSolver(requests[q].surface)
  }

  ghost predicate Safe(requests: seq<Request>, trace: seq<Note>) {
    forall i | 0 <= i < |trace| :: Sound(requests, trace[..i], trace[i])
  }

  /** A status the router may put back: legal both ways, and never reviewing. */
  predicate Reversible(prior: RunStatus) {
    CanTransition(prior, WaitingApproval) && CanTransition(WaitingApproval, prior) && prior != Reviewing
  }

  predicate PriorsReversible(s: State) {
    && (forall a | a in s.pending :: Restorable(s.runs, s.pending[a].run, s.pending[a].prior))
    && (forall d | d in s.deciders && !s.deciders[d].Forgetting? ::
          Restorable(s.runs, s.deciders[d].entry.run, s.deciders[d].entry.prior))
  }

  /** A wait of the run began at this revision, from this very status, which may be put back. */
  predicate Restorable(runs: map<nat, seq<RunStatus>>, run: nat, prior: Prior) {
    && Reversible(prior.status)
    && run in runs && 0 < prior.since < |runs[run]|
    && runs[run][prior.since] == WaitingApproval && runs[run][prior.since - 1] == prior.status
  }

  predicate RunsFollowTable(s: State) {
    forall r | r in s.runs :: s.runs[r] != [] && FollowsTable(s.runs[r])
  }

  // The invariant

  predicate RowsKnown(s: State) {
    && (forall a | 0 <= a < |s.rows| :: s.rows[a].request < |s.requests|)
    && (forall a, b | 0 <= a < b < |s.rows| :: s.rows[a].request != s.rows[b].request)
  }

  /** The request in the handler's hands is unanswered and not parked; it has at most the row the handler made. */
  ghost predicate Held(s: State, q: nat) {
    q < |s.requests| && !Answered(s.trace, q) && !WasParked(s.trace, q)
  }

  /** And it is one for the user. */
  ghost predicate Asks(s: State, q: nat) {
    Held(s, q) && NeedsUser(s.requests[q].surface)
  }

  predicate NoRow(s: State, q: nat) {
    forall a | 0 <= a < |s.rows| :: s.rows[a].request != q
  }

  predicate PriorFor(s: State, q: nat, seen: RunStatus, revision: nat, prior: Prior)
    requires q < |s.requests|
  {
    if seen == WaitingApproval then Restorable(s.runs, s.requests[q].run, prior)
    else prior == Prior(seen, revision + 1, revision, None)
  }

  predicate OwnRow(s: State, q: nat, a: nat) {
    a < |s.rows| && s.rows[a].request == q
  }

  ghost predicate RouterInv(s: State) {
    match s.router
    case Idle | Stopped => true
    case Handling(q) => Held(s, q) && NoRow(s, q)
    case PlanRow(q, a) => Held(s, q) && OwnRow(s, q, a) && IsScreening(s.requests[q].surface)
    case RunRead(q, seen, revision) => Asks(s, q) && NoRow(s, q)
    case PriorKnown(q, seen, revision, prior) => Asks(s, q) && NoRow(s, q) && PriorFor(s, q, seen, revision, prior)
    case RowCreated(q, seen, revision, prior, a) =>
      Asks(s, q) && OwnRow(s, q, a) && PriorFor(s, q, seen, revision, prior)
    case Registering(q, prior, a) => Asks(s, q) && OwnRow(s, q, a) && Restorable(s.runs, s.requests[q].run, prior)
    case Answering(q, accept) => Held(s, q) && (accept ==> MayAccept(s.requests, s.trace, q))
  }

  predicate EntryInv(s: State, a: nat, entry: Entry) {
    Parked(a, entry.request) in s.trace && Restorable(s.runs, entry.run, entry.prior)
  }

  predicate PendingInv(s: State) {
    forall a | a in s.pending :: EntryInv(s, a, s.pending[a])
  }

  predicate Active(pc: DeciderPC) {
    pc.Decided? || pc.Resumed?
  }

  ghost predicate DeciderInv(s: State, pc: DeciderPC) {
    match pc
    case Forgetting(_) => true
    case Looked(a, entry, approve) => EntryInv(s, a, entry)
    case Decided(a, entry, approve) =>
      EntryInv(s, a, entry) && !RowPending(s, a) && !Answered(s.trace, entry.request)
      && Chosen(a, entry.request, approve) in s.trace
    case Resumed(a, entry, approve) =>
      EntryInv(s, a, entry) && !RowPending(s, a) && !Answered(s.trace, entry.request)
      && Chosen(a, entry.request, approve) in s.trace && WasResumed(s.trace, a, entry.request)
  }

  ghost predicate DecidersInv(s: State) {
    && (forall d | d in s.deciders :: DeciderInv(s, s.deciders[d]))
    && (forall d, e | d in s.deciders && e in s.deciders && d != e && Active(s.deciders[d]) && Active(s.deciders[e]) ::
          s.deciders[d].row != s.deciders[e].row)
  }

  /** A parked request has its row, and nothing has happened to it while the row is pending. */
  ghost predicate ParkedInv(s: State) {
    forall a, q | Parked(a, q) in s.trace ::
      && OwnRow(s, q, a)
      && (RowPending(s, a) ==> !Answered(s.trace, q) && !WasChosen(s.trace, a, q))
  }

  /** Everything but the request loop's own part. */
  ghost predicate SharedInv(s: State) {
    RowsKnown(s) && PendingInv(s) && DecidersInv(s) && ParkedInv(s) && RunsFollowTable(s) && Safe(s.requests, s.trace)
  }

  ghost predicate Inv(s: State) {
    RouterInv(s) && SharedInv(s)
  }

  // Every step keeps the invariant

  lemma SafeAppend(requests: seq<Request>, trace: seq<Note>, note: Note)
    requires Safe(requests, trace) && Sound(requests, trace, note)
    ensures Safe(requests, trace + [note])
  {
    hide Sound;
    var longer := trace + [note];
    forall i | 0 <= i < |longer| ensures Sound(requests, longer[..i], longer[i]) {
      if i < |trace| {
        assert longer[..i] == trace[..i];
      } else {
        assert longer[..i] == trace;
      }
    }
  }

  lemma SafeDeliver(requests: seq<Request>, arriving: Request, trace: seq<Note>)
    requires Safe(requests, trace)
    ensures Safe(requests + [arriving], trace)
  {
    forall i | 0 <= i < |trace| ensures Sound(requests + [arriving], trace[..i], trace[i]) {
      assert Sound(requests, trace[..i], trace[i]);
    }
  }

  // The building blocks of steps

  lemma SetRouter(s: State, pc: RouterPC)
    requires SharedInv(s)
    ensures SharedInv(s.(router := pc))
  {
    hide Safe, FollowsTable, Restorable;
    var next := s.(router := pc);
    assert RowsKnown(next) && PendingInv(next) && RunsFollowTable(next);
    assert forall a :: RowPending(next, a) == RowPending(s, a);
    assert forall q, a :: OwnRow(next, q, a) == OwnRow(s, q, a);
    assert forall pc :: DeciderInv(s, pc) ==> DeciderInv(next, pc);
    assert DecidersInv(next) && ParkedInv(next);
  }

  lemma AddRow(s: State, row: Row)
    requires SharedInv(s) && row.request < |s.requests| && NoRow(s, row.request)
    ensures SharedInv(s.(rows := s.rows + [row]))
  {
    hide Safe, FollowsTable, Restorable;
    var next := s.(rows := s.rows + [row]);
    assert RowsKnown(next) && PendingInv(next) && RunsFollowTable(next);
    assert forall a: nat | a < |s.rows| :: RowPending(next, a) == RowPending(s, a);
    assert ParkedInv(next);
    forall d | d in next.deciders ensures DeciderInv(next, next.deciders[d]) {
      assert DeciderInv(s, s.deciders[d]);
    }
  }

  lemma CloseRow(s: State, a: nat, status: RowStatus)
    requires SharedInv(s) && a < |s.rows| && status != Pending
    ensures SharedInv(s.(rows := s.rows[a := s.rows[a].(status := status)]))
  {
    hide Safe, FollowsTable, Restorable;
    var next := s.(rows := s.rows[a := s.rows[a].(status := status)]);
    assert RowsKnown(next) && PendingInv(next) && RunsFollowTable(next);
    assert forall b :: RowPending(next, b) ==> RowPending(s, b);
    assert forall q, b :: OwnRow(next, q, b) == OwnRow(s, q, b);
    assert ParkedInv(next);
    forall d | d in next.deciders ensures DeciderInv(next, next.deciders[d]) {
      assert DeciderInv(s, s.deciders[d]);
    }
  }

  lemma CloseRows(s: State, run: nat)
    requires SharedInv(s)
    ensures SharedInv(s.(rows := RetireAll(s.rows, run)))
  {
    hide Safe, FollowsTable, Restorable;
    var next := s.(rows := RetireAll(s.rows, run));
    assert RowsKnown(next) && PendingInv(next) && RunsFollowTable(next);
    assert forall b :: RowPending(next, b) ==> RowPending(s, b);
    assert forall q, b :: OwnRow(next, q, b) == OwnRow(s, q, b);
    assert ParkedInv(next);
    forall d | d in next.deciders ensures DeciderInv(next, next.deciders[d]) {
      assert DeciderInv(s, s.deciders[d]);
    }
  }

  /** Notes of the loop concern requests that were not parked. */
  predicate LoopNote(note: Note) {
    note.Marked? || note.PlanApproved? || note.Replayed? || note.Answer?
  }

  lemma AddLoopNote(s: State, note: Note)
    requires SharedInv(s) && LoopNote(note) && Sound(s.requests, s.trace, note)
    requires note.Answer? ==> !WasParked(s.trace, note.request)
    ensures SharedInv(Noted(s, note))
  {
    hide Safe, FollowsTable, Restorable, Sound;
    var next := Noted(s, note);
    SafeAppend(s.requests, s.trace, note);
    assert RowsKnown(next) && PendingInv(next) && RunsFollowTable(next);
    assert ParkedInv(next);
    forall d | d in next.deciders ensures DeciderInv(next, next.deciders[d]) {
      assert DeciderInv(s, s.deciders[d]);
    }
  }

  /** Runs only gain versions. */
  predicate RunsGrow(runs: map<nat, seq<RunStatus>>, later: map<nat, seq<RunStatus>>) {
    forall r | r in runs :: r in later && runs[r] <= later[r]
  }

  lemma StillRestorable(runs: map<nat, seq<RunStatus>>, later: map<nat, seq<RunStatus>>)
    requires RunsGrow(runs, later)
    ensures forall run, prior :: Restorable(runs, run, prior) ==> Restorable(later, run, prior)
  {
  }

  lemma MoveRun(s: State, run: nat, to: RunStatus)
    requires SharedInv(s) && StatusOf(s, run).Some? && CanTransition(StatusOf(s, run).value, to)
    ensures SharedInv(s.(runs := s.runs[run := s.runs[run] + [to]]))
  {
    hide Safe, Restorable, AllowedTransitions;
    var next := s.(runs := s.runs[run := s.runs[run] + [to]]);
    StillRestorable(s.runs, next.runs);
    assert RowsKnown(next) && RunsFollowTable(next);
    assert PendingInv(next) by {
      assert forall a | a in s.pending :: EntryInv(s, a, s.pending[a]);
    }
    assert forall a :: RowPending(next, a) == RowPending(s, a);
    assert ParkedInv(next);
    forall d | d in next.deciders ensures DeciderInv(next, next.deciders[d]) {
      assert DeciderInv(s, s.deciders[d]);
    }
  }

  lemma AddEntry(s: State, a: nat, entry: Entry)
    requires SharedInv(s) && EntryInv(s, a, entry)
    ensures SharedInv(s.(pending := s.pending[a := entry], parked := s.parked[a := entry]))
  {
    hide Safe, FollowsTable, Restorable;
    var next := s.(pending := s.pending[a := entry], parked := s.parked[a := entry]);
    assert RowsKnown(next) && PendingInv(next) && RunsFollowTable(next) && ParkedInv(next);
    forall d | d in next.deciders ensures DeciderInv(next, next.deciders[d]) {
      assert DeciderInv(s, s.deciders[d]);
    }
  }

  lemma NotePark(s: State, a: nat, q: nat)
    requires SharedInv(s) && Asks(s, q) && OwnRow(s, q, a)
    ensures SharedInv(Noted(s, Parked(a, q)))
  {
    hide Safe, FollowsTable, Restorable, AllowedTransitions;
    var next := Noted(s, Parked(a, q));
    SafeAppend(s.requests, s.trace, Parked(a, q));
    assert RowsKnown(next) && PendingInv(next) && RunsFollowTable(next);
    if WasChosen(s.trace, a, q) {
      ChosenIsParked(s.requests, s.trace, a, q);
    }
    assert ParkedInv(next);
    forall d | d in next.deciders ensures DeciderInv(next, next.deciders[d]) {
      assert DeciderInv(s, s.deciders[d]);
    }
  }

  lemma Park(s: State, a: nat, q: nat, prior: Prior, run: nat)
    requires SharedInv(s) && Asks(s, q) && OwnRow(s, q, a) && Restorable(s.runs, run, prior)
    ensures var entry := Entry(q, prior, run);
            SharedInv(Noted(s, Parked(a, q)).(pending := s.pending[a := entry], parked := s.parked[a := entry]))
  {
    hide SharedInv, Restorable;
    NotePark(s, a, q);
    AddEntry(Noted(s, Parked(a, q)), a, Entry(q, prior, run));
  }

  /** Only parked rows are chosen. */
  lemma ChosenIsParked(requests: seq<Request>, trace: seq<Note>, a: nat, q: nat)
    requires Safe(requests, trace) && WasChosen(trace, a, q)
    ensures Parked(a, q) in trace
  {
    var approve := Chosen(a, q, true) in trace;
    var i :| 0 <= i < |trace| && trace[i] == Chosen(a, q, approve);
    assert Sound(requests, trace[..i], trace[i]);
  }

  // The loop

  lemma DeliverKeeps(s: State, arriving: Request)
    requires Inv(s) && s.router == Idle
    ensures Inv(s.(requests := s.requests + [arriving], router := Handling(|s.requests|)))
  {
    hide Safe, FollowsTable, Restorable;
    var next := s.(requests := s.requests + [arriving], router := Handling(|s.requests|));
    SafeDeliver(s.requests, arriving, s.trace);
    assert RowsKnown(next) && PendingInv(next) && RunsFollowTable(next);
    assert ParkedInv(next);
    forall d | d in next.deciders ensures DeciderInv(next, next.deciders[d]) {
      assert DeciderInv(s, s.deciders[d]);
    }
    if Answered(s.trace, |s.requests|) || WasParked(s.trace, |s.requests|) {
      NotedHaveArrived(s, |s.requests|);
    }
  }

  /** Only requests that have arrived are parked or answered. */
  lemma NotedHaveArrived(s: State, q: nat)
    requires Inv(s) && (Answered(s.trace, q) || WasParked(s.trace, q))
    ensures q < |s.requests|
  {
    hide Restorable;
    if Answered(s.trace, q) {
      var i :| 0 <= i < |s.trace| && s.trace[i].Answer? && s.trace[i].request == q;
      assert Sound(s.requests, s.trace[..i], s.trace[i]);
    } else {
      var a :| Parked(a, q) in s.trace;
      assert OwnRow(s, q, a);
    }
  }

  lemma HandleKeeps(s: State, action: LoopAction)
    requires Inv(s) && s.router.Handling? && LoopStep(s, action).Some?
    ensures Inv(LoopStep(s, action).value)
  {
    hide SharedInv, Safe, FollowsTable, Restorable, AutomaticPolicy, IsSolver, IsPortableRun, EqualFold;
    var next := LoopStep(s, action).value;
    var q := s.router.request;
    var request := s.requests[q];
    SolversNeedAuthorization(request.surface);
    PolicyOfSurfaces(request.surface);
    hide Harmless, FromBrowser, IsScreening;
    if action.CreatePlanned? {
      NamedScreening(request.surface);
    }
    var noted := Noted(s, if action.Replay? then Replayed(q) else Marked(request.attempt));
    var row := NewRow(s, q);
    if next.trace != s.trace {
      AddLoopNote(s, noted.trace[|s.trace|]);
      SetRouter(noted, next.router);
    } else if next.rows != s.rows {
      AddRow(s, row);
      SetRouter(s.(rows := s.rows + [row]), next.router);
    } else {
      SetRouter(s, next.router);
    }
  }

  lemma PlanKeeps(s: State, action: LoopAction)
    requires Inv(s) && s.router.PlanRow? && LoopStep(s, action).Some?
    ensures Inv(LoopStep(s, action).value)
  {
    hide SharedInv, Safe, FollowsTable, Restorable, IsSolver;
    var next := LoopStep(s, action).value;
    if action.ApprovePlanned? {
      var noted := Noted(s, PlanApproved(s.router.request));
      AddLoopNote(s, PlanApproved(s.router.request));
      CloseRow(noted, s.router.row, Approved);
      SetRouter(noted.(rows := next.rows), next.router);
    } else {
      SetRouter(s, next.router);
    }
  }

  lemma PriorKeeps(s: State, action: LoopAction)
    requires Inv(s) && (s.router.RunRead? || s.router.PriorKnown?) && LoopStep(s, action).Some?
    ensures Inv(LoopStep(s, action).value)
  {
    hide Safe, FollowsTable, Reversible, DecidersInv, ParkedInv;
    var next := LoopStep(s, action).value;
    if action.CreateRow? {
      var row := NewRow(s, s.router.request);
      AddRow(s, row);
      SetRouter(s.(rows := s.rows + [row]), next.router);
    } else {
      SetRouter(s, next.router);
    }
  }

  lemma EnterKeeps(s: State, action: LoopAction)
    requires Inv(s) && s.router.RowCreated? && LoopStep(s, action).Some?
    ensures Inv(LoopStep(s, action).value)
  {
    hide SharedInv, Safe, FollowsTable, AllowedTransitions;
    var next := LoopStep(s, action).value;
    var pc := s.router;
    assert PriorFor(s, pc.request, pc.seen, pc.revision, pc.prior);
    if action.EnterWait? && pc.seen != WaitingApproval {
      WaitingIsReversible(pc.seen);
      MoveRun(s, s.requests[pc.request].run, WaitingApproval);
      SetRouter(s.(runs := next.runs), next.router);
    } else {
      SetRouter(s, next.router);
    }
  }

  lemma RegisterKeeps(s: State)
    requires Inv(s) && s.router.Registering?
    ensures Inv(LoopStep(s, Register).value)
  {
    hide SharedInv, Safe, FollowsTable, Restorable;
    var next := LoopStep(s, Register).value;
    var q, a, prior := s.router.request, s.router.row, s.router.prior;
    Park(s, a, q, prior, s.requests[q].run);
    SetRouter(Noted(s, Parked(a, q)).(pending := next.pending, parked := next.parked), Idle);
  }

  lemma AnswerKeeps(s: State, action: LoopAction)
    requires Inv(s) && s.router.Answering? && LoopStep(s, action).Some?
    ensures Inv(LoopStep(s, action).value)
  {
    hide SharedInv, Safe, FollowsTable, MayAccept;
    var answer := Answer(s.router.request, s.router.accept);
    AddLoopNote(s, answer);
    SetRouter(Noted(s, answer), LoopStep(s, action).value.router);
  }

  lemma LoopKeeps(s: State, action: LoopAction)
    requires Inv(s) && LoopStep(s, action).Some?
    ensures Inv(LoopStep(s, action).value)
  {
    hide Inv;
    match s.router
    case Idle => DeliverKeeps(s, action.arriving);
    case Handling(_) => HandleKeeps(s, action);
    case PlanRow(_, _) => PlanKeeps(s, action);
    case RunRead(_, _, _) => PriorKeeps(s, action);
    case PriorKnown(_, _, _, _) => PriorKeeps(s, action);
    case RowCreated(_, _, _, _, _) => EnterKeeps(s, action);
    case Registering(_, _, _) => RegisterKeeps(s);
    case Answering(_, _) => AnswerKeeps(s, action);
    case Stopped =>
  }

  // The users

  /** The loop's part survives steps that leave its request and row alone. */
  lemma RouterUndisturbed(s: State, next: State)
    requires RouterInv(s)
    requires next.router == s.router && next.requests == s.requests && |next.rows| == |s.rows|
    requires forall a | 0 <= a < |s.rows| :: next.rows[a].request == s.rows[a].request
    requires forall note <- s.trace :: note in next.trace
    requires forall q | Held(s, q) :: Held(next, q)
    requires RunsGrow(s.runs, next.runs)
    ensures RouterInv(next)
  {
    StillRestorable(s.runs, next.runs);
    hide AutomaticPolicy, IsSolver, Restorable;
  }

  lemma SetDecider(s: State, d: nat, pc: DeciderPC)
    requires SharedInv(s) && DeciderInv(s, pc)
    requires Active(pc) ==> forall e | e in s.deciders && e != d && Active(s.deciders[e]) :: s.deciders[e].row != pc.row
    ensures SharedInv(s.(deciders := s.deciders[d := pc]))
  {
    hide Safe, FollowsTable, Restorable;
    var next := s.(deciders := s.deciders[d := pc]);
    assert RowsKnown(next) && PendingInv(next) && RunsFollowTable(next) && ParkedInv(next);
    forall e | e in next.deciders ensures DeciderInv(next, next.deciders[e]) {
      assert DeciderInv(s, next.deciders[e]);
    }
  }

  lemma DropDecider(s: State, d: nat)
    requires SharedInv(s) && d in s.deciders
    ensures SharedInv(s.(deciders := s.deciders - {d}))
  {
    hide Safe, FollowsTable, Restorable;
    var next := s.(deciders := s.deciders - {d});
    assert RowsKnown(next) && PendingInv(next) && RunsFollowTable(next) && ParkedInv(next);
    forall e | e in next.deciders ensures DeciderInv(next, next.deciders[e]) {
      assert DeciderInv(s, next.deciders[e]);
    }
  }

  lemma ForgetEntry(s: State, a: nat)
    requires SharedInv(s)
    ensures SharedInv(s.(pending := s.pending - {a}))
  {
    hide Safe, FollowsTable, Restorable;
    var next := s.(pending := s.pending - {a});
    assert RowsKnown(next) && PendingInv(next) && RunsFollowTable(next) && ParkedInv(next);
    forall e | e in next.deciders ensures DeciderInv(next, next.deciders[e]) {
      assert DeciderInv(s, next.deciders[e]);
    }
  }

  /** Deciding the pending row of a parked request: one decider takes it. */
  lemma ChooseRow(s: State, d: nat, a: nat, entry: Entry, approve: bool)
    requires SharedInv(s) && EntryInv(s, a, entry) && RowPending(s, a)
    ensures SharedInv(Noted(s, Chosen(a, entry.request, approve)).(
                        rows := s.rows[a := s.rows[a].(status := if approve then Approved else Denied)],
                        deciders := s.deciders[d := Decided(a, entry, approve)]))
  {
    hide Safe, FollowsTable, Restorable;
    var note := Chosen(a, entry.request, approve);
    var status := if approve then Approved else Denied;
    SafeAppend(s.requests, s.trace, note);
    NoActiveDecider(s, a);
    CloseRow(s, a, status);
    var closed := s.(rows := s.rows[a := s.rows[a].(status := status)]);
    NoteOfClosedRow(closed, note);
    SetDecider(Noted(closed, note), d, Decided(a, entry, approve));
  }

  lemma NoActiveDecider(s: State, a: nat)
    requires SharedInv(s) && RowPending(s, a)
    ensures forall e | e in s.deciders && Active(s.deciders[e]) :: s.deciders[e].row != a
  {
    forall e | e in s.deciders && Active(s.deciders[e]) ensures s.deciders[e].row != a {
      assert DeciderInv(s, s.deciders[e]);
    }
  }

  lemma NoteOfClosedRow(s: State, note: Note)
    requires SharedInv(s) && Sound(s.requests, s.trace, note)
    requires note.Chosen? || note.Released? || note.KeptWaiting?
    requires forall a | Parked(a, note.request) in s.trace :: !RowPending(s, a)
    ensures SharedInv(Noted(s, note))
  {
    hide Safe, FollowsTable, Restorable, Sound;
    var next := Noted(s, note);
    SafeAppend(s.requests, s.trace, note);
    assert RowsKnown(next) && PendingInv(next) && RunsFollowTable(next) && ParkedInv(next);
    forall e | e in next.deciders ensures DeciderInv(next, next.deciders[e]) {
      assert DeciderInv(s, next.deciders[e]);
    }
  }

  lemma KnownDecider(s: State, d: nat)
    requires SharedInv(s) && d in s.deciders
    ensures DeciderInv(s, s.deciders[d])
  {
  }

  /** The run of a decided request is released and the decider goes on to answer. */
  lemma ResumeNoted(s: State, d: nat, note: Note)
    requires SharedInv(s) && d in s.deciders && s.deciders[d].Decided?
    requires var pc := s.deciders[d];
             note in {Released(pc.row, pc.entry.request), KeptWaiting(pc.row, pc.entry.request)}
    ensures var pc := s.deciders[d];
            SharedInv(Noted(s, note).(deciders := s.deciders[d := Resumed(pc.row, pc.entry, pc.approve)]))
  {
    hide Safe, FollowsTable, Restorable, RunsFollowTable;
    var pc := s.deciders[d];
    KnownDecider(s, d);
    assert OwnRow(s, pc.entry.request, pc.row);
    NoteOfClosedRow(s, note);
    SetDecider(Noted(s, note), d, Resumed(pc.row, pc.entry, pc.approve));
  }

  lemma ResumeKeeps(s: State, d: nat, action: UserAction)
    requires Inv(s) && d in s.deciders && s.deciders[d].Decided? && action.Resume?
    ensures Inv(UserStep(s, d, action).value)
  {
    hide SharedInv, Safe, AllowedTransitions, RunsFollowTable, Blocked;
    var pc := s.deciders[d];
    var next := UserStep(s, d, action).value;
    KnownDecider(s, d);
    if next.trace == s.trace {
      ResumeRefused(s, d);
    } else {
      var note := next.trace[|s.trace|];
      ResumeNoted(s, d, note);
      if next.runs != s.runs {
        MoveRun(Noted(s, note).(deciders := next.deciders), pc.entry.run, pc.entry.prior.status);
      }
    }
    RouterUndisturbed(s, next);
  }

  lemma ResumeRefused(s: State, d: nat)
    requires SharedInv(s) && d in s.deciders && s.deciders[d].Decided?
    ensures SharedInv(s.(deciders := s.deciders[d := Forgetting(s.deciders[d].row)]))
  {
    SetDecider(s, d, Forgetting(s.deciders[d].row));
  }

  lemma AcknowledgeKeeps(s: State, d: nat)
    requires Inv(s) && d in s.deciders && s.deciders[d].Resumed?
    ensures Inv(UserStep(s, d, Acknowledge).value)
  {
    hide Safe, FollowsTable, Restorable, IsSolver, IsScreening, Harmless, FromBrowser, IsPortableRun, NeedsUser;
    var pc := s.deciders[d];
    var q := pc.entry.request;
    var next := UserStep(s, d, Acknowledge).value;
    assert DeciderInv(s, pc);
    assert OwnRow(s, q, pc.row);
    SafeAppend(s.requests, s.trace, Answer(q, pc.approve));
    assert RowsKnown(next) && PendingInv(next) && RunsFollowTable(next) && ParkedInv(next);
    forall e | e in next.deciders ensures DeciderInv(next, next.deciders[e]) {
      if e != d {
        OthersOnOtherRequests(s, d, e);
      }
    }
    RouterUndisturbed(s, next);
  }

  lemma OthersOnOtherRequests(s: State, d: nat, e: nat)
    requires SharedInv(s) && d in s.deciders && e in s.deciders && d != e && Active(s.deciders[d])
    ensures DeciderInv(s, s.deciders[e])
    ensures Active(s.deciders[e]) ==> s.deciders[e].entry.request != s.deciders[d].entry.request
  {
    hide Safe, FollowsTable, Restorable;
    var x, y := s.deciders[d], s.deciders[e];
    assert DeciderInv(s, x) && DeciderInv(s, y);
    if Active(y) {
      assert OwnRow(s, x.entry.request, x.row) && OwnRow(s, y.entry.request, y.row);
    }
  }

  lemma DecideKeeps(s: State, d: nat, stageActive: bool)
    requires Inv(s) && d in s.deciders && s.deciders[d].Looked?
    ensures Inv(UserStep(s, d, DecideRow(stageActive)).value)
  {
    hide Safe, FollowsTable, Restorable;
    var pc := s.deciders[d];
    var a := pc.row;
    var next := UserStep(s, d, DecideRow(stageActive)).value;
    assert DeciderInv(s, pc);
    if next.trace != s.trace {
      ChooseRow(s, d, a, pc.entry, pc.approve);
    } else if next.rows != s.rows {
      CloseRow(s, a, Denied);
      SetDecider(s.(rows := next.rows), d, Forgetting(a));
    } else {
      SetDecider(s, d, Forgetting(a));
    }
    RouterUndisturbed(s, next);
  }

  lemma UserKeeps(s: State, d: nat, action: UserAction)
    requires Inv(s) && UserStep(s, d, action).Some?
    ensures Inv(UserStep(s, d, action).value)
  {
    hide Safe, FollowsTable, Restorable, ParkedInv, RowsKnown;
    var next := UserStep(s, d, action).value;
    match action
    case Look(a, approve) =>
      SetDecider(s, d, Looked(a, s.pending[a], approve));
      RouterUndisturbed(s, next);
    case DecideRow(stageActive) => DecideKeeps(s, d, stageActive);
    case DecideError =>
      DropDecider(s, d);
      RouterUndisturbed(s, next);
    case Resume(_) => ResumeKeeps(s, d, action);
    case ResumeError =>
      SetDecider(s, d, Forgetting(s.deciders[d].row));
      RouterUndisturbed(s, next);
    case Acknowledge => AcknowledgeKeeps(s, d);
    case Forget =>
      ForgetEntry(s, s.deciders[d].row);
      DropDecider(s.(pending := next.pending), d);
      RouterUndisturbed(s, next);
  }

  /** Attempts and the other owner's approvals are nothing the router remembers. */
  lemma OutsideTheRouter(s: State, ended: set<nat>, foreign: multiset<nat>)
    requires SharedInv(s)
    ensures SharedInv(s.(ended := ended, foreign := foreign))
  {
    hide Safe, FollowsTable, Restorable;
    var next := s.(ended := ended, foreign := foreign);
    assert RowsKnown(next) && PendingInv(next) && RunsFollowTable(next);
    assert forall a :: RowPending(next, a) == RowPending(s, a);
    assert forall q, a :: OwnRow(next, q, a) == OwnRow(s, q, a);
    assert ParkedInv(next);
    forall d | d in next.deciders ensures DeciderInv(next, next.deciders[d]) {
      assert DeciderInv(s, s.deciders[d]);
    }
  }

  lemma OtherKeeps(s: State, action: OtherAction)
    requires Inv(s) && OtherStep(s, action).Some?
    ensures Inv(OtherStep(s, action).value)
  {
    hide SharedInv, Restorable, AllowedTransitions;
    match action
    case MoveRun(run, to) =>
      MoveRun(s, run, to);
      if Retires(to) {
        CloseRows(s.(runs := s.runs[run := s.runs[run] + [to]]), run);
      }
      var next := OtherStep(s, action).value;
      OutsideTheRouter(next.(foreign := s.foreign), next.ended, next.foreign);
      RouterUndisturbed(s, next);
    case RetireRow(a) =>
      CloseRow(s, a, Denied);
      RouterUndisturbed(s, OtherStep(s, action).value);
    case _ =>
      var next := OtherStep(s, action).value;
      OutsideTheRouter(s, next.ended, next.foreign);
      RouterUndisturbed(s, next);
  }

  // Main results

  lemma StepKeeps(s: State, action: Action)
    requires Inv(s) && Next(s, action).Some?
    ensures Inv(Next(s, action).value)
  {
    hide RouterInv, SharedInv, LoopStep, UserStep, OtherStep;
    match action
    case Loop(loop) => LoopKeeps(s, loop);
    case User(d, user) => UserKeeps(s, d, user);
    case Other(other) => OtherKeeps(s, other);
  }

  lemma Invariant(start: State, schedule: seq<Action>)
    requires Initial(start)
    ensures Inv(After(start, schedule))
  {
    hide Inv, Next;
    StartKeeps(start);
    forall s, action | Inv(s) && Next(s, action).Some? ensures Inv(Next(s, action).value) {
      StepKeeps(s, action);
    }
    Always(Next, Inv, start, schedule);
  }

  lemma StartKeeps(start: State)
    requires Initial(start)
    ensures Inv(start)
  {
  }

  /**
    Over every interleaving: notes come only after what must precede them, runs
    follow the status table, and every remembered prior may be put back.
   */
  lemma EveryRunIsSafe(start: State, schedule: seq<Action>)
    requires Initial(start)
    ensures var s := After(start, schedule);
            Safe(s.requests, s.trace) && RunsFollowTable(s) && PriorsReversible(s)
  {
    hide Safe, RunsFollowTable, Restorable, RouterInv, After, RowsKnown, ParkedInv;
    Invariant(start, schedule);
    var s := After(start, schedule);
    forall d | d in s.deciders && !s.deciders[d].Forgetting?
      ensures Restorable(s.runs, s.deciders[d].entry.run, s.deciders[d].entry.prior)
    {
      assert DeciderInv(s, s.deciders[d]);
    }
  }

  /** No approval request is answered twice, whatever the answers were. */
  lemma AnsweredAtMostOnce(start: State, schedule: seq<Action>, i: nat, j: nat)
    requires Initial(start)
    requires var trace := After(start, schedule).trace;
             i < j < |trace| && trace[i].Answer? && trace[j].Answer?
    ensures var trace := After(start, schedule).trace;
            trace[i].request != trace[j].request
  {
    hide After, MayAccept;
    EveryRunIsSafe(start, schedule);
    var s := After(start, schedule);
    assert Sound(s.requests, s.trace[..j], s.trace[j]);
    assert s.trace[..j][i] == s.trace[i];
  }

  /**
    A request is accepted without a decision of the user, a plan or a finished
    job only if it is harmless, or asks for the browser or an installed package
    after its stage was marked.
   */
  lemma AcceptsAreDurable(start: State, schedule: seq<Action>, i: nat)
    requires Initial(start)
    requires var s := After(start, schedule); i < |s.trace| && s.trace[i].Answer? && s.trace[i].accept
    ensures var s := After(start, schedule);
            var q := s.trace[i].request;
            && q < |s.requests|
            && var surface := s.requests[q].surface;
               || Harmless(surface)
               || exists k :: 0 <= k < i && Authorizes(s.trace[k], q, s.requests[q])
  {
    hide After, Harmless, IsSolver, FromBrowser, IsPortableRun;
    EveryRunIsSafe(start, schedule);
    var s := After(start, schedule);
    var q := s.trace[i].request;
    var before := s.trace[..i];
    assert Sound(s.requests, before, s.trace[i]);
    var request := s.requests[q];
    if !Harmless(request.surface) {
      var note :| note in before && Authorizes(note, q, request);
      var k :| 0 <= k < |before| && before[k] == note;
      assert s.trace[k] == note;
    }
  }

  /** The durable facts that stand for a request, and for which requests they do. */
  predicate Authorizes(note: Note, q: nat, request: Request) {
    || (note.Chosen? && note.request == q && note.approve)
    || (note == PlanApproved(q) && IsScreening(request.surface))
    || (note == Replayed(q) && IsSolver(request.surface))
    || (note == Marked(request.attempt) && (FromBrowser(request.surface) || IsPortableRun(request.surface)))
  }

  /** Only what needs the user is ever parked for the user. */
  lemma ParkedNeedTheUser(start: State, schedule: seq<Action>, i: nat)
    requires Initial(start) && i < |After(start, schedule).trace| && After(start, schedule).trace[i].Parked?
    ensures var s := After(start, schedule);
            s.trace[i].request < |s.requests| && NeedsUser(s.requests[s.trace[i].request].surface)
  {
    hide After, NeedsUser;
    EveryRunIsSafe(start, schedule);
    var s := After(start, schedule);
    assert Sound(s.requests, s.trace[..i], s.trace[i]);
  }

  /**
    What does not need the user is never parked or declined by a rule: it goes
    through, harmless requests always and the browser's while their attempt is
    in progress, when the mark is written.
   */
  lemma UnattendedGoThrough(s: State, q: nat)
    requires s.router == Handling(q) && q < |s.requests| && !NeedsUser(s.requests[q].surface)
    ensures var request := s.requests[q];
            LoopStep(s, Automatic) ==
              if Harmless(request.surface) then Some(s.(router := Answering(q, true)))
              else if request.attempt in s.ended then None
              else Some(Noted(s, Marked(request.attempt)).(router := Answering(q, true)))
    ensures forall action :: LoopStep(s, action).Some? ==> action in {Fail, GrantPortable, Automatic}
  {
    hide Harmless, FromBrowser, IsPortableRun;
    PolicyOfSurfaces(s.requests[q].surface);
    SolversNeedAuthorization(s.requests[q].surface);
  }

  /**
    A parked request is answered exactly as the user decided, after the store was
    asked to resume its run, which it released or left waiting for another approval.
   */
  lemma ParkedRequestsFollowTheUser(start: State, schedule: seq<Action>, i: nat, k: nat)
    requires Initial(start)
    requires var trace := After(start, schedule).trace;
             i < |trace| && k < |trace| && trace[i].Answer? && trace[k].Parked? && trace[k].request == trace[i].request
    ensures var trace := After(start, schedule).trace;
            && k < i
            && Chosen(trace[k].row, trace[i].request, trace[i].accept) in trace[..i]
            && WasResumed(trace[..i], trace[k].row, trace[i].request)
            && Chosen(trace[k].row, trace[i].request, !trace[i].accept) !in trace
  {
    hide After, MayAccept;
    EveryRunIsSafe(start, schedule);
    var s := After(start, schedule);
    var trace := s.trace;
    var a, q, accept := trace[k].row, trace[i].request, trace[i].accept;
    assert Sound(s.requests, trace[..k], trace[k]) && Sound(s.requests, trace[..i], trace[i]);
    if i < k {
      Earlier(trace, i, k);
    }
    Earlier(trace, k, i);
    if n :| 0 <= n < |trace| && trace[n] == Chosen(a, q, !accept) {
      ChosenOnce(s.requests, trace, a, q, accept, i, n);
    }
  }

  lemma Earlier(trace: seq<Note>, i: nat, k: nat)
    requires i < |trace| && k <= |trace|
    ensures i < k ==> trace[i] in trace[..k]
  {
    if i < k {
      assert trace[..k][i] == trace[i];
    }
  }

  /** A row is not decided both ways. */
  lemma ChosenOnce(requests: seq<Request>, trace: seq<Note>, a: nat, q: nat, approve: bool, i: nat, n: nat)
    requires Safe(requests, trace) && i < |trace| && n < |trace|
    requires Chosen(a, q, approve) in trace[..i]
    ensures trace[n] != Chosen(a, q, !approve)
  {
    hide MayAccept;
    var m :| 0 <= m < i && trace[m] == Chosen(a, q, approve);
    assert Sound(requests, trace[..m], trace[m]) && Sound(requests, trace[..n], trace[n]);
    Earlier(trace, n, m);
    Earlier(trace, m, n);
  }

  /** Every restore the router asks for is legal. */
  lemma RestoresAreLegal(start: State, schedule: seq<Action>, i: nat)
    requires Initial(start) && i < |After(start, schedule).trace|
    ensures !After(start, schedule).trace[i].RestoreRefused?
  {
    hide After;
    EveryRunIsSafe(start, schedule);
    var s := After(start, schedule);
    assert Sound(s.requests, s.trace[..i], s.trace[i]);
  }
}
