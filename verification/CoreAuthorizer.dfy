/**
  Approval of a planned XFOIL matrix: one visible cell the user decides, and
  exact approved rows for all the others. Authorizations, user decisions, the
  run's other writers and cancellation are interleaved step by step.
 */
module CoreAuthorizer {
  import opened Wrappers
  import opened Text
  import opened JsonText
  import opened RunStates
  import opened Schedules

  const MAX_CELLS := 64

  /** The digest of a cell's arguments. */
  type Digest = string -> string

  function ItemId(cell: nat): string {
    "xfoil-cell-" + (if cell + 1 < 1000 then Fixed(cell + 1, 3) else Decimal(cell + 1))
  }

  /** Items are numbered from one, in three digits. */
  lemma ItemIdsCount(cell: nat)
    requires cell < MAX_CELLS
    ensures var id := ItemId(cell);
            && |id| == 14 && id[..11] == "xfoil-cell-" && AllDigits(id[11..]) && DigitsValue(id[11..]) == cell + 1
  {
    var id := ItemId(cell);
    assert id[11..] == Fixed(cell + 1, 3) && id[..11] == "xfoil-cell-";
    assert Pow10(3) == 1000;
    FixedValue(cell + 1, 3);
  }

  /** Different cells of one matrix have different item ids. */
  lemma ItemIdsDistinct(a: nat, b: nat)
    requires a < MAX_CELLS && b < MAX_CELLS && ItemId(a) == ItemId(b)
    ensures a == b
  {
    hide ItemId, DigitsValue;
    ItemIdsCount(a);
    ItemIdsCount(b);
  }

  // State

  datatype RowStatus = Pending | Approved | Denied

  /** A durable approval row, made by an authorization for one of its cells. */
  datatype Row = Row(auth: nat, cell: nat, item: string, argument: string, digest: string, status: RowStatus)

  datatype Decision = Accepted | Refused | RestoreFailed

  datatype Error = BadMatrix | RunNotCollecting | StoreError | ContextDone | DeniedByUser

  datatype AuthPC =
    | Starting
    | RunRead(revision: nat)
    | RunWaits
    | Created(row: nat)
    | Awaiting(row: nat)
    | Expanding(cell: nat)
    | Approving(cell: nat, row: nat)
    | Returned(error: Option<Error>)

  /** sends counts every value the capacity-one channel ever took. */
  datatype Auth = Auth(run: nat, arguments: seq<string>, pc: AuthPC, channel: seq<Decision>, sends: nat)

  datatype DeciderPC =
    | Looked(row: nat, auth: nat, approve: bool)
    | Decided(row: nat, auth: nat, approve: bool)
    | Forgetting(row: nat, auth: nat, outcome: Option<Decision>)
    | Sending(row: nat, auth: nat, decision: Decision)

  datatype State = State(
    auths: map<nat, Auth>,
    rows: seq<Row>,
    pending: map<nat, nat>,
    deciders: map<nat, DeciderPC>,
    runs: map<nat, seq<RunStatus>>)

  predicate Initial(s: State) {
    s.auths == map[] && s.rows == [] && s.pending == map[] && s.deciders == map[]
  }

  function StatusOf(s: State, run: nat): Option<RunStatus> {
    if run in s.runs && s.runs[run] != [] then Some(s.runs[run][|s.runs[run]| - 1]) else None
  }

  predicate RowPending(s: State, row: nat) {
    row < |s.rows| && s.rows[row].status == Pending
  }

  // The authorization

  datatype AuthAction =
    | Begin(run: nat, arguments: seq<string>)
    | Check                    // validate the cells, read the run
    | Fail                     // the store returned an error
    | EnterWait
    | CreateVisible
    | Register
    | Cancel
    | Receive
    | CreateCell
    | ApproveCell

  predicate GoodMatrix(arguments: seq<string>) {
    0 < |arguments| <= MAX_CELLS && forall a <- arguments :: ReadText(a).Some?
  }

  function NewRow(digest: Digest, auth: nat, arguments: seq<string>, cell: nat): Row
    requires cell < |arguments|
  {
    Row(auth, cell, ItemId(cell), arguments[cell], digest(arguments[cell]), Pending)
  }

  function At(s: State, x: nat, pc: AuthPC): State
    requires x in s.auths
  {
    s.(auths := s.auths[x := s.auths[x].(pc := pc)])
  }

  function AuthStep(digest: Digest, s: State, x: nat, action: AuthAction): (next: Option<State>) {
    if x !in s.auths then
      if action.Begin? then Some(s.(auths := s.auths[x := Auth(action.run, action.arguments, Starting, [], 0)]))
      else None
    else
      var auth := s.auths[x];
      match auth.pc
      case Starting =>
        if !action.Check? then None
        else if !GoodMatrix(auth.arguments) then Some(At(s, x, Returned(Some(BadMatrix))))
        else if StatusOf(s, auth.run) != Some(Collecting) then Some(At(s, x, Returned(Some(RunNotCollecting))))
        else Some(At(s, x, RunRead(|s.runs[auth.run]| - 1)))
      case RunRead(revision) =>
        if action.Fail? then Some(At(s, x, Returned(Some(StoreError))))
        else if && action.EnterWait? && StatusOf(s, auth.run) == Some(Collecting)
                && |s.runs[auth.run]| == revision + 1 then
          Some(At(s, x, RunWaits).(runs := s.runs[auth.run := s.runs[auth.run] + [WaitingApproval]]))
        else None
      case RunWaits =>
        // the restore after an error is one of the run's other writers
        if action.Fail? then Some(At(s, x, Returned(Some(StoreError))))
        else if action.CreateVisible? && |auth.arguments| > 0 then
          Some(At(s, x, Created(|s.rows|)).(rows := s.rows + [NewRow(digest, x, auth.arguments, 0)]))
        else None
      case Created(row) =>
        if action.Register? then Some(At(s, x, Awaiting(row)).(pending := s.pending[row := x])) else None
      case Awaiting(row) =>
        if action.Cancel? then Some(At(s, x, Returned(Some(ContextDone))).(pending := s.pending - {row}))
        else if action.Receive? && auth.channel != [] then
          var pc := match auth.channel[0]
                    case Accepted => Expanding(1)
                    case Refused => Returned(Some(DeniedByUser))
                    case RestoreFailed => Returned(Some(StoreError));
          Some(s.(auths := s.auths[x := auth.(pc := pc, channel := auth.channel[1..])]))
        else None
      case Expanding(cell) =>
        if cell >= |auth.arguments| then
          if action.CreateCell? then Some(At(s, x, Returned(None))) else None
        else if action.Fail? then Some(At(s, x, Returned(Some(StoreError))))
        else if action.CreateCell? then
          Some(At(s, x, Approving(cell, |s.rows|)).(rows := s.rows + [NewRow(digest, x, auth.arguments, cell)]))
        else None
      case Approving(cell, row) =>
        if action.Fail? then Some(At(s, x, Returned(Some(StoreError))))
        else if action.ApproveCell? && RowPending(s, row) then
          Some(At(s, x, Expanding(cell + 1)).(rows := s.rows[row := s.rows[row].(status := Approved)]))
        else None
      case Returned(_) => None
  }

  // User decisions

  datatype UserAction =
    | Look(id: nat, approve: bool)
    | DecideRow(stageActive: bool)
    | DecideError
    | Resume(works: bool)
    | Forget
    | Send

  function UserStep(s: State, d: nat, action: UserAction): (next: Option<State>) {
    if d !in s.deciders then
      if action.Look? && action.id in s.pending then
        Some(s.(deciders := s.deciders[d := Looked(action.id, s.pending[action.id], action.approve)]))
      else None
    else
      match s.deciders[d]
      case Looked(a, x, approve) =>
        if action.DecideError? then Some(s.(deciders := s.deciders - {d}))
        else if !action.DecideRow? then None
        else if !RowPending(s, a) then Some(s.(deciders := s.deciders[d := Forgetting(a, x, None)]))
        else if !action.stageActive || x !in s.auths || StatusOf(s, s.auths[x].run) != Some(WaitingApproval) then
          Some(s.(rows := s.rows[a := s.rows[a].(status := Denied)],
            deciders := s.deciders[d := Forgetting(a, x, None)]))
        else
          Some(s.(rows := s.rows[a := s.rows[a].(status := if approve then Approved else Denied)],
                  deciders := s.deciders[d := Decided(a, x, approve)]))
      case Decided(a, x, approve) =>
        if !action.Resume? then None
        else if !action.works then Some(s.(deciders := s.deciders[d := Forgetting(a, x, Some(RestoreFailed))]))
        else
          // the restored run is one of the run's other writers
          Some(s.(deciders := s.deciders[d := Forgetting(a, x, Some(if approve then Accepted else Refused))]))
      case Forgetting(a, x, outcome) =>
        if !action.Forget? then None
        else if outcome.None? then Some(s.(pending := s.pending - {a}, deciders := s.deciders - {d}))
        else Some(s.(pending := s.pending - {a}, deciders := s.deciders[d := Sending(a, x, outcome.value)]))
      case Sending(a, x, decision) =>
        // a send on a full channel would block
        if action.Send? && x in s.auths && s.auths[x].channel == [] then
          Some(s.(auths := s.auths[x := s.auths[x].(channel := [decision], sends := s.auths[x].sends + 1)],
                  deciders := s.deciders - {d}))
        else None
  }

  datatype OtherAction = MoveRun(run: nat, to: RunStatus) | RetireRow(id: nat)

  /** Other writers move runs along the table, restores included, and retire pending approvals. */
  function OtherStep(s: State, action: OtherAction): (next: Option<State>) {
    match action
    case MoveRun(run, to) =>
      var status := StatusOf(s, run);
      if status.Some? && CanTransition(status.value, to) then Some(s.(runs := s.runs[run := s.runs[run] + [to]]))
      else None
    case RetireRow(a) =>
      if RowPending(s, a) then Some(s.(rows := s.rows[a := s.rows[a].(status := Denied)])) else None
  }

  datatype Action = Authorize(x: nat, step: AuthAction) | User(d: nat, user: UserAction) | Other(other: OtherAction)

  function Next(digest: Digest, s: State, action: Action): Option<State> {
    match action
    case Authorize(x, step) => AuthStep(digest, s, x, step)
    case User(d, user) => UserStep(s, d, user)
    case Other(other) => OtherStep(s, other)
  }

  function Machine(digest: Digest): (State, Action) -> Option<State> {
    (s, action) => Next(digest, s, action)
  }

  function After(digest: Digest, start: State, schedule: seq<Action>): State {
    Execute(Machine(digest), start, schedule)
  }

  // The invariant

  /** Rows say what their authorization asked for, cell by cell. */
  predicate RowInv(digest: Digest, s: State, row: Row) {
    && row.auth in s.auths && row.cell < |s.auths[row.auth].arguments|
    && GoodMatrix(s.auths[row.auth].arguments)
    && row.item == ItemId(row.cell)
    && row.argument == s.auths[row.auth].arguments[row.cell]
    && row.digest == digest(row.argument)
  }

  predicate RowsInv(digest: Digest, s: State) {
    forall a | 0 <= a < |s.rows| :: RowInv(digest, s, s.rows[a])
  }

  /** All rows of the authorization are for cells below the bound. */
  predicate RowsBelow(rows: seq<Row>, x: nat, bound: nat) {
    forall a | 0 <= a < |rows| && rows[a].auth == x :: rows[a].cell < bound
  }

  predicate IsVisible(rows: seq<Row>, x: nat, a: nat) {
    a < |rows| && rows[a].auth == x && rows[a].cell == 0
  }

  predicate OnlyRow(rows: seq<Row>, x: nat, a: nat) {
    IsVisible(rows, x, a) && forall b | 0 <= b < |rows| && rows[b].auth == x :: b == a
  }

  ghost predicate CellApproved(rows: seq<Row>, x: nat, cell: nat) {
    exists a :: 0 <= a < |rows| && rows[a].auth == x && rows[a].cell == cell && rows[a].status == Approved
  }

  ghost predicate ApprovedBelow(rows: seq<Row>, x: nat, bound: nat) {
    forall cell | 0 <= cell < bound :: CellApproved(rows, x, cell)
  }

  ghost predicate PcInv(rows: seq<Row>, x: nat, auth: Auth) {
    match auth.pc
    case Starting => RowsBelow(rows, x, 0) && auth.sends == 0
    case RunRead(_) => RowsBelow(rows, x, 0) && auth.sends == 0 && GoodMatrix(auth.arguments)
    case RunWaits => RowsBelow(rows, x, 0) && auth.sends == 0 && GoodMatrix(auth.arguments)
    case Created(a) => OnlyRow(rows, x, a) && GoodMatrix(auth.arguments)
    case Awaiting(a) => OnlyRow(rows, x, a) && GoodMatrix(auth.arguments)
    case Expanding(cell) =>
      && 1 <= cell <= |auth.arguments| && RowsBelow(rows, x, cell) && ApprovedBelow(rows, x, cell)
      && GoodMatrix(auth.arguments)
    case Approving(cell, a) =>
      && cell < |auth.arguments| && a < |rows| && rows[a].auth == x && rows[a].cell == cell
      && RowsBelow(rows, x, cell + 1)
      && ApprovedBelow(rows, x, cell) && GoodMatrix(auth.arguments)
    case Returned(error) =>
      && (error == None ==> ApprovedBelow(rows, x, |auth.arguments|) && GoodMatrix(auth.arguments))
      && (error == Some(DeniedByUser) ==> RowsBelow(rows, x, 1) && VisibleDenied(rows, x))
  }

  predicate VisibleDenied(rows: seq<Row>, x: nat) {
    exists a: nat | a < |rows| :: IsVisible(rows, x, a) && rows[a].status == Denied
  }

  /** No two rows are for the same cell of the same matrix. */
  predicate RowsDistinct(rows: seq<Row>) {
    forall a, b | 0 <= a < b < |rows| && rows[a].auth == rows[b].auth :: rows[a].cell != rows[b].cell
  }

  /** At most one value was sent, after the visible row was decided, and it says what was decided. */
  predicate ChannelInv(rows: seq<Row>, x: nat, auth: Auth) {
    && |auth.channel| <= auth.sends <= 1
    && forall a | 0 <= a < |rows| && IsVisible(rows, x, a) ::
         && (auth.sends > 0 ==> rows[a].status != Pending)
         && (Accepted in auth.channel ==> rows[a].status == Approved)
         && (Refused in auth.channel ==> rows[a].status == Denied)
  }

  ghost predicate AuthsInv(s: State) {
    forall x | x in s.auths :: PcInv(s.rows, x, s.auths[x]) && ChannelInv(s.rows, x, s.auths[x])
  }

  predicate PendingInv(s: State) {
    forall a | a in s.pending :: IsVisible(s.rows, s.pending[a], a)
  }

  /** The decider has taken the row and will send on the channel. */
  predicate Active(pc: DeciderPC) {
    pc.Decided? || (pc.Forgetting? && pc.outcome.Some?) || pc.Sending?
  }

  predicate Says(pc: DeciderPC, decision: Decision) {
    match pc
    case Looked(_, _, _) => false
    case Decided(_, _, approve) => decision == if approve then Accepted else Refused
    case Forgetting(_, _, d) => d == Some(decision)
    case Sending(_, _, d) => d == decision
  }

  predicate DeciderInv(s: State, pc: DeciderPC) {
    && ((pc.Forgetting? && pc.outcome.None?) || IsVisible(s.rows, pc.auth, pc.row))
    && (Active(pc) ==>
          && pc.auth in s.auths && s.auths[pc.auth].sends == 0 && s.rows[pc.row].status != Pending
          && (Says(pc, Accepted) ==> s.rows[pc.row].status == Approved)
          && (Says(pc, Refused) ==> s.rows[pc.row].status == Denied))
  }

  predicate DecidersInv(s: State) {
    && (forall d | d in s.deciders :: DeciderInv(s, s.deciders[d]))
    && (forall d, e | d in s.deciders && e in s.deciders && d != e && Active(s.deciders[d]) && Active(s.deciders[e]) ::
          s.deciders[d].row != s.deciders[e].row)
  }

  ghost predicate Inv(digest: Digest, s: State) {
    RowsInv(digest, s) && RowsDistinct(s.rows) && AuthsInv(s) && PendingInv(s) && DecidersInv(s)
  }

  // The building blocks of steps

  lemma SetPc(digest: Digest, s: State, x: nat, pc: AuthPC)
    requires Inv(digest, s) && x in s.auths && PcInv(s.rows, x, s.auths[x].(pc := pc))
    ensures Inv(digest, At(s, x, pc))
  {
    hide PcInv, ChannelInv, IsVisible, ItemId;
    var next := At(s, x, pc);
    assert RowsInv(digest, next) && PendingInv(next);
    forall y | y in next.auths ensures PcInv(next.rows, y, next.auths[y]) && ChannelInv(next.rows, y, next.auths[y]) {
      assert PcInv(s.rows, y, s.auths[y]) && ChannelInv(s.rows, y, s.auths[y]);
      SameChannel(s.rows, y, s.auths[y], next.auths[y]);
    }
    forall d | d in next.deciders ensures DeciderInv(next, next.deciders[d]) {
      assert DeciderInv(s, s.deciders[d]);
    }
  }

  lemma SameChannel(rows: seq<Row>, x: nat, a: Auth, b: Auth)
    requires a.channel == b.channel && a.sends == b.sends
    ensures ChannelInv(rows, x, a) == ChannelInv(rows, x, b)
  {
  }

  lemma SetRuns(digest: Digest, s: State, runs: map<nat, seq<RunStatus>>)
    requires Inv(digest, s)
    ensures Inv(digest, s.(runs := runs))
  {
    hide PcInv, ChannelInv, IsVisible, ItemId;
    var next := s.(runs := runs);
    assert RowsInv(digest, next) && PendingInv(next) && AuthsInv(next);
    forall d | d in next.deciders ensures DeciderInv(next, next.deciders[d]) {
      assert DeciderInv(s, s.deciders[d]);
    }
  }

  lemma SetPending(digest: Digest, s: State, pending: map<nat, nat>)
    requires Inv(digest, s) && forall a | a in pending :: IsVisible(s.rows, pending[a], a)
    ensures Inv(digest, s.(pending := pending))
  {
    hide PcInv, ChannelInv, IsVisible, ItemId;
    var next := s.(pending := pending);
    assert RowsInv(digest, next) && PendingInv(next) && AuthsInv(next);
    forall d | d in next.deciders ensures DeciderInv(next, next.deciders[d]) {
      assert DeciderInv(s, s.deciders[d]);
    }
  }

  lemma BeginAuth(digest: Digest, s: State, x: nat, run: nat, arguments: seq<string>)
    requires Inv(digest, s) && x !in s.auths
    ensures Inv(digest, s.(auths := s.auths[x := Auth(run, arguments, Starting, [], 0)]))
  {
    hide ItemId;
    var next := s.(auths := s.auths[x := Auth(run, arguments, Starting, [], 0)]);
    assert forall a | 0 <= a < |s.rows| :: RowInv(digest, s, s.rows[a]);
    assert RowsInv(digest, next) && PendingInv(next);
    assert PcInv(next.rows, x, next.auths[x]) && ChannelInv(next.rows, x, next.auths[x]);
    assert AuthsInv(next) by { hide PcInv, ChannelInv; }
    forall d | d in next.deciders ensures DeciderInv(next, next.deciders[d]) {
      assert DeciderInv(s, s.deciders[d]);
    }
  }

  // Rows

  lemma RowsBelowAppend(rows: seq<Row>, row: Row, x: nat, bound: nat)
    requires RowsBelow(rows, x, bound) && (row.auth == x ==> row.cell < bound)
    ensures RowsBelow(rows + [row], x, bound)
  {
  }

  lemma ApprovedAppend(rows: seq<Row>, row: Row, x: nat, bound: nat)
    requires ApprovedBelow(rows, x, bound)
    ensures ApprovedBelow(rows + [row], x, bound)
  {
    forall cell | 0 <= cell < bound ensures CellApproved(rows + [row], x, cell) {
      assert CellApproved(rows, x, cell);
      var a :| 0 <= a < |rows| && rows[a].auth == x && rows[a].cell == cell && rows[a].status == Approved;
      assert (rows + [row])[a] == rows[a];
    }
  }

  lemma DeniedAppend(rows: seq<Row>, row: Row, x: nat)
    requires VisibleDenied(rows, x)
    ensures VisibleDenied(rows + [row], x)
  {
    var a :| 0 <= a < |rows| && IsVisible(rows, x, a) && rows[a].status == Denied;
    assert IsVisible(rows + [row], x, a);
  }

  /** A row of another authorization changes nothing for this one. */
  lemma AppendForeign(rows: seq<Row>, row: Row, x: nat, auth: Auth)
    requires row.auth != x && PcInv(rows, x, auth) && ChannelInv(rows, x, auth)
    ensures PcInv(rows + [row], x, auth) && ChannelInv(rows + [row], x, auth)
  {
    hide ApprovedBelow, RowsBelow;
    match auth.pc
    case Starting => RowsBelowAppend(rows, row, x, 0);
    case RunRead(_) => RowsBelowAppend(rows, row, x, 0);
    case RunWaits => RowsBelowAppend(rows, row, x, 0);
    case Expanding(cell) =>
      RowsBelowAppend(rows, row, x, cell);
      ApprovedAppend(rows, row, x, cell);
    case Approving(cell, _) =>
      RowsBelowAppend(rows, row, x, cell + 1);
      ApprovedAppend(rows, row, x, cell);
    case Returned(error) =>
      if error == None {
        ApprovedAppend(rows, row, x, |auth.arguments|);
      }
      if error == Some(DeniedByUser) {
        RowsBelowAppend(rows, row, x, 1);
        DeniedAppend(rows, row, x);
      }
    case _ =>
  }

  /** An authorization makes the row of its next cell. */
  lemma AddRow(digest: Digest, s: State, x: nat, cell: nat)
    requires Inv(digest, s) && x in s.auths && cell < |s.auths[x].arguments| && RowsBelow(s.rows, x, cell)
    requires s.auths[x].pc == (if cell == 0 then RunWaits else Expanding(cell))
    ensures Inv(digest, At(s, x, if cell == 0 then Created(|s.rows|) else Approving(cell, |s.rows|))
                          .(rows := s.rows + [NewRow(digest, x, s.auths[x].arguments, cell)]))
  {
    assert GoodMatrix(s.auths[x].arguments) by {
      assert PcInv(s.rows, x, s.auths[x]);
    }
    hide ItemId, PcInv, ChannelInv, GoodMatrix;
    var row := NewRow(digest, x, s.auths[x].arguments, cell);
    var pc := if cell == 0 then Created(|s.rows|) else Approving(cell, |s.rows|);
    var next := At(s, x, pc).(rows := s.rows + [row]);
    RowsGrow(digest, s, next, row, cell);
    forall y | y in next.auths ensures PcInv(next.rows, y, next.auths[y]) && ChannelInv(next.rows, y, next.auths[y]) {
      assert PcInv(s.rows, y, s.auths[y]) && ChannelInv(s.rows, y, s.auths[y]);
      if y == x {
        OwnRowAdded(s.rows, row, x, s.auths[x]);
      } else {
        AppendForeign(s.rows, row, y, s.auths[y]);
      }
    }
    forall d | d in next.deciders ensures DeciderInv(next, next.deciders[d]) {
      assert DeciderInv(s, s.deciders[d]);
    }
  }

  lemma RowsGrow(digest: Digest, s: State, next: State, row: Row, cell: nat)
    requires RowsInv(digest, s) && RowsDistinct(s.rows) && PendingInv(s) && RowsBelow(s.rows, row.auth, cell)
    requires row.cell == cell && next.rows == s.rows + [row] && next.pending == s.pending && RowInv(digest, next, row)
    requires forall x | x in s.auths :: x in next.auths && next.auths[x].arguments == s.auths[x].arguments
    ensures RowsInv(digest, next) && RowsDistinct(next.rows) && PendingInv(next)
  {
    hide ItemId;
    assert forall a | 0 <= a < |s.rows| :: RowInv(digest, s, s.rows[a]);
  }

  lemma OwnRowAdded(rows: seq<Row>, row: Row, x: nat, auth: Auth)
    requires row.auth == x && row.status == Pending && row.cell < |auth.arguments|
    requires PcInv(rows, x, auth) && ChannelInv(rows, x, auth) && RowsBelow(rows, x, row.cell)
    requires auth.pc == (if row.cell == 0 then RunWaits else Expanding(row.cell))
    ensures var next := auth.(pc := if row.cell == 0 then Created(|rows|) else Approving(row.cell, |rows|));
            PcInv(rows + [row], x, next) && ChannelInv(rows + [row], x, next)
  {
    ApprovedAppend(rows, row, x, row.cell);
  }

  // Statuses

  function WithStatus(rows: seq<Row>, a: nat, status: RowStatus): seq<Row>
    requires a < |rows|
  {
    rows[a := rows[a].(status := status)]
  }

  lemma StatusKeepsCells(rows: seq<Row>, a: nat, status: RowStatus, x: nat)
    requires a < |rows|
    ensures forall bound: nat :: RowsBelow(rows, x, bound) ==> RowsBelow(WithStatus(rows, a, status), x, bound)
    ensures forall b: nat :: OnlyRow(rows, x, b) ==> OnlyRow(WithStatus(rows, a, status), x, b)
    ensures forall b: nat :: IsVisible(WithStatus(rows, a, status), x, b) == IsVisible(rows, x, b)
    ensures rows[a].status == Pending ==>
              forall bound: nat | ApprovedBelow(rows, x, bound) :: ApprovedBelow(WithStatus(rows, a, status), x, bound)
    ensures rows[a].status == Pending && VisibleDenied(rows, x) ==> VisibleDenied(WithStatus(rows, a, status), x)
  {
    if rows[a].status == Pending && VisibleDenied(rows, x) {
      var b :| 0 <= b < |rows| && IsVisible(rows, x, b) && rows[b].status == Denied;
      assert IsVisible(WithStatus(rows, a, status), x, b);
    }
    if rows[a].status == Pending {
      forall bound: nat | ApprovedBelow(rows, x, bound) ensures ApprovedBelow(WithStatus(rows, a, status), x, bound) {
        forall cell | 0 <= cell < bound ensures CellApproved(WithStatus(rows, a, status), x, cell) {
          assert CellApproved(rows, x, cell);
          var b :| 0 <= b < |rows| && rows[b].auth == x && rows[b].cell == cell && rows[b].status == Approved;
          assert WithStatus(rows, a, status)[b] == rows[b];
        }
      }
    }
  }

  lemma CloseKeepsAuth(rows: seq<Row>, a: nat, status: RowStatus, x: nat, auth: Auth)
    requires a < |rows| && rows[a].status == Pending && status != Pending
    requires PcInv(rows, x, auth) && ChannelInv(rows, x, auth)
    ensures PcInv(WithStatus(rows, a, status), x, auth) && ChannelInv(WithStatus(rows, a, status), x, auth)
  {
    hide RowsBelow, OnlyRow, ApprovedBelow, GoodMatrix;
    StatusKeepsCells(rows, a, status, x);
  }

  /** A pending row is decided or retired. */
  lemma CloseRow(digest: Digest, s: State, a: nat, status: RowStatus)
    requires Inv(digest, s) && RowPending(s, a) && status != Pending
    ensures Inv(digest, s.(rows := WithStatus(s.rows, a, status)))
    ensures forall d | d in s.deciders && Active(s.deciders[d]) :: s.deciders[d].row != a
  {
    hide ItemId, PcInv, ChannelInv;
    var next := s.(rows := WithStatus(s.rows, a, status));
    assert forall b | 0 <= b < |s.rows| :: RowInv(digest, s, s.rows[b]);
    assert RowsInv(digest, next) && RowsDistinct(next.rows) && PendingInv(next);
    forall y | y in next.auths ensures PcInv(next.rows, y, next.auths[y]) && ChannelInv(next.rows, y, next.auths[y]) {
      assert PcInv(s.rows, y, s.auths[y]) && ChannelInv(s.rows, y, s.auths[y]);
      CloseKeepsAuth(s.rows, a, status, y, s.auths[y]);
    }
    forall d | d in s.deciders
      ensures DeciderInv(next, next.deciders[d]) && (Active(s.deciders[d]) ==> s.deciders[d].row != a)
    {
      assert DeciderInv(s, s.deciders[d]);
    }
  }

  /** The cell of an expanding authorization is approved. */
  lemma ApproveKeeps(digest: Digest, s: State, x: nat)
    requires Inv(digest, s) && x in s.auths && s.auths[x].pc.Approving? && RowPending(s, s.auths[x].pc.row)
    ensures Inv(digest, AuthStep(digest, s, x, ApproveCell).value)
  {
    hide RowInv, ChannelInv, RowsDistinct;
    var pc := s.auths[x].pc;
    CloseRow(digest, s, pc.row, Approved);
    var closed := s.(rows := WithStatus(s.rows, pc.row, Approved));
    assert PcInv(s.rows, x, s.auths[x]) && PcInv(closed.rows, x, closed.auths[x]);
    forall cell | 0 <= cell < pc.cell + 1 ensures CellApproved(closed.rows, x, cell) {
      if cell == pc.cell {
        assert closed.rows[pc.row].status == Approved;
      }
    }
    SetPc(digest, closed, x, Expanding(pc.cell + 1));
  }

  /** The awaited decision arrives: an acceptance comes with an approved visible row. */
  lemma ReceiveKeeps(digest: Digest, s: State, x: nat)
    requires Inv(digest, s) && x in s.auths && AuthStep(digest, s, x, Receive).Some?
    ensures Inv(digest, AuthStep(digest, s, x, Receive).value)
  {
    hide RowInv, RowsDistinct, ItemId;
    var auth := s.auths[x];
    var next := AuthStep(digest, s, x, Receive).value;
    assert PcInv(s.rows, x, auth) && ChannelInv(s.rows, x, auth);
    assert next.auths[x].channel == [];
    assert PcInv(next.rows, x, next.auths[x]) by {
      var a := auth.pc.row;
      assert IsVisible(s.rows, x, a);
      if auth.channel[0] == Accepted {
        assert CellApproved(s.rows, x, 0);
      }
    }
    assert RowsInv(digest, next) && PendingInv(next) by { KnownRows(digest, s, next); }
    forall y | y in next.auths ensures PcInv(next.rows, y, next.auths[y]) && ChannelInv(next.rows, y, next.auths[y]) {
      if y != x {
        hide PcInv, ChannelInv;
        assert PcInv(s.rows, y, s.auths[y]) && ChannelInv(s.rows, y, s.auths[y]);
      }
    }
    forall d | d in next.deciders ensures DeciderInv(next, next.deciders[d]) {
      assert DeciderInv(s, s.deciders[d]);
    }
  }

  /** Rows and pending entries depend only on what authorizations asked for. */
  lemma KnownRows(digest: Digest, s: State, next: State)
    requires RowsInv(digest, s) && PendingInv(s) && next.rows == s.rows && next.pending == s.pending
    requires forall x | x in s.auths :: x in next.auths && next.auths[x].arguments == s.auths[x].arguments
    ensures RowsInv(digest, next) && PendingInv(next)
  {
    assert forall a | 0 <= a < |s.rows| :: RowInv(digest, s, s.rows[a]);
  }

  predicate BeforeDecision(pc: AuthPC) {
    pc.Starting? || pc.RunRead? || pc.RunWaits? || pc.Created?
  }

  lemma AskingKeeps(digest: Digest, s: State, x: nat, action: AuthAction)
    requires Inv(digest, s) && x in s.auths && BeforeDecision(s.auths[x].pc) && AuthStep(digest, s, x, action).Some?
    ensures Inv(digest, AuthStep(digest, s, x, action).value)
  {
    hide RowsInv, RowsDistinct, DecidersInv, ChannelInv, CellApproved, GoodMatrix, ItemId, AllowedTransitions;
    var next := AuthStep(digest, s, x, action).value;
    assert PcInv(s.rows, x, s.auths[x]);
    match s.auths[x].pc
    case Starting => SetPc(digest, s, x, next.auths[x].pc);
    case RunRead(_) =>
      SetPc(digest, s, x, next.auths[x].pc);
      if action.EnterWait? {
        SetRuns(digest, At(s, x, RunWaits), next.runs);
      }
    case RunWaits =>
      if action.CreateVisible? {
        AddRow(digest, s, x, 0);
      } else {
        SetPc(digest, s, x, next.auths[x].pc);
      }
    case Created(a) =>
      SetPc(digest, s, x, Awaiting(a));
      SetPending(digest, At(s, x, Awaiting(a)), next.pending);
  }

  lemma DecidedKeeps(digest: Digest, s: State, x: nat, action: AuthAction)
    requires Inv(digest, s) && x in s.auths && !BeforeDecision(s.auths[x].pc) && AuthStep(digest, s, x, action).Some?
    ensures Inv(digest, AuthStep(digest, s, x, action).value)
  {
    hide RowsInv, RowsDistinct, DecidersInv, ChannelInv, CellApproved, GoodMatrix, ItemId, AllowedTransitions;
    var next := AuthStep(digest, s, x, action).value;
    assert PcInv(s.rows, x, s.auths[x]);
    match action
    case Receive => ReceiveKeeps(digest, s, x);
    case Cancel =>
      SetPc(digest, s, x, next.auths[x].pc);
      SetPending(digest, At(s, x, next.auths[x].pc), next.pending);
    case CreateCell =>
      if s.auths[x].pc.cell < |s.auths[x].arguments| {
        ExpandKeeps(digest, s, x);
      } else {
        SetPc(digest, s, x, Returned(None));
      }
    case ApproveCell => ApproveKeeps(digest, s, x);
    case Fail => SetPc(digest, s, x, next.auths[x].pc);
  }

  lemma AuthKeeps(digest: Digest, s: State, x: nat, action: AuthAction)
    requires Inv(digest, s) && AuthStep(digest, s, x, action).Some?
    ensures Inv(digest, AuthStep(digest, s, x, action).value)
  {
    hide Inv;
    if x !in s.auths {
      BeginAuth(digest, s, x, action.run, action.arguments);
    } else if BeforeDecision(s.auths[x].pc) {
      AskingKeeps(digest, s, x, action);
    } else {
      DecidedKeeps(digest, s, x, action);
    }
  }

  lemma ExpandKeeps(digest: Digest, s: State, x: nat)
    requires Inv(digest, s) && x in s.auths && s.auths[x].pc.Expanding? && s.auths[x].pc.cell < |s.auths[x].arguments|
    ensures Inv(digest, AuthStep(digest, s, x, CreateCell).value)
  {
    hide RowsInv, RowsDistinct, DecidersInv, ChannelInv, CellApproved, GoodMatrix, PendingInv;
    assert PcInv(s.rows, x, s.auths[x]);
    AddRow(digest, s, x, s.auths[x].pc.cell);
  }

  // The users

  lemma SetDecider(digest: Digest, s: State, d: nat, pc: DeciderPC)
    requires Inv(digest, s) && DeciderInv(s, pc)
    requires Active(pc) ==> forall e | e in s.deciders && e != d && Active(s.deciders[e]) :: s.deciders[e].row != pc.row
    ensures Inv(digest, s.(deciders := s.deciders[d := pc]))
  {
    hide PcInv, ChannelInv, IsVisible, ItemId, RowsDistinct;
    var next := s.(deciders := s.deciders[d := pc]);
    KnownRows(digest, s, next);
    assert AuthsInv(next);
    forall e | e in next.deciders ensures DeciderInv(next, next.deciders[e]) {
      assert DeciderInv(s, next.deciders[e]);
    }
  }

  lemma DropDecider(digest: Digest, s: State, d: nat)
    requires Inv(digest, s)
    ensures Inv(digest, s.(deciders := s.deciders - {d}))
  {
    hide PcInv, ChannelInv, IsVisible, ItemId, RowsDistinct;
    var next := s.(deciders := s.deciders - {d});
    KnownRows(digest, s, next);
    assert AuthsInv(next);
    forall e | e in next.deciders ensures DeciderInv(next, next.deciders[e]) {
      assert DeciderInv(s, next.deciders[e]);
    }
  }

  /** Nothing was sent to an authorization whose visible row is pending. */
  lemma NothingSent(digest: Digest, s: State, x: nat, a: nat)
    requires Inv(digest, s) && IsVisible(s.rows, x, a) && RowPending(s, a)
    ensures x in s.auths && s.auths[x].sends == 0
  {
    assert RowInv(digest, s, s.rows[a]);
    assert ChannelInv(s.rows, x, s.auths[x]);
  }

  lemma DecideKeeps(digest: Digest, s: State, d: nat, stageActive: bool)
    requires Inv(digest, s) && d in s.deciders && s.deciders[d].Looked?
    ensures Inv(digest, UserStep(s, d, DecideRow(stageActive)).value)
  {
    hide AuthsInv, RowsInv, RowsDistinct, PendingInv;
    var pc := s.deciders[d];
    var next := UserStep(s, d, DecideRow(stageActive)).value;
    assert DeciderInv(s, pc);
    if RowPending(s, pc.row) {
      NothingSent(digest, s, pc.auth, pc.row);
      CloseRow(digest, s, pc.row, next.rows[pc.row].status);
      var closed := s.(rows := WithStatus(s.rows, pc.row, next.rows[pc.row].status));
      SetDecider(digest, closed, d, next.deciders[d]);
    } else {
      SetDecider(digest, s, d, next.deciders[d]);
    }
  }

  lemma SendKeeps(digest: Digest, s: State, d: nat)
    requires Inv(digest, s) && d in s.deciders && s.deciders[d].Sending?
    ensures UserStep(s, d, Send).Some? && Inv(digest, UserStep(s, d, Send).value)
  {
    hide RowInv, ItemId;
    var pc := s.deciders[d];
    var x := pc.auth;
    assert DeciderInv(s, pc) && ChannelInv(s.rows, x, s.auths[x]);
    var next := UserStep(s, d, Send).value;
    assert RowsInv(digest, next) && PendingInv(next) by { KnownRows(digest, s, next); }
    forall y | y in next.auths ensures PcInv(next.rows, y, next.auths[y]) && ChannelInv(next.rows, y, next.auths[y]) {
      assert PcInv(s.rows, y, s.auths[y]) && ChannelInv(s.rows, y, s.auths[y]);
      if y == x {
        SentOnce(s, pc, s.auths[x]);
      }
    }
    forall e | e in next.deciders ensures DeciderInv(next, next.deciders[e]) {
      OthersElsewhere(s, d, e);
    }
  }

  lemma SentOnce(s: State, pc: DeciderPC, auth: Auth)
    requires pc.Sending? && DeciderInv(s, pc) && pc.auth in s.auths && auth == s.auths[pc.auth] && RowsDistinct(s.rows)
    requires PcInv(s.rows, pc.auth, auth) && ChannelInv(s.rows, pc.auth, auth)
    ensures PcInv(s.rows, pc.auth, auth.(channel := [pc.decision], sends := auth.sends + 1))
    ensures ChannelInv(s.rows, pc.auth, auth.(channel := [pc.decision], sends := auth.sends + 1))
  {
    hide ApprovedBelow, GoodMatrix;
    var row := s.rows[pc.row];
    assert forall a: nat | IsVisible(s.rows, pc.auth, a) :: a == pc.row;
  }

  /** Two deciders that both go on to send do so on different channels. */
  lemma OthersElsewhere(s: State, d: nat, e: nat)
    requires DecidersInv(s) && RowsDistinct(s.rows) && d in s.deciders && e in s.deciders && d != e
        && Active(s.deciders[d])
    ensures DeciderInv(s, s.deciders[e])
    ensures Active(s.deciders[e]) ==> s.deciders[e].auth != s.deciders[d].auth
  {
    assert DeciderInv(s, s.deciders[d]) && DeciderInv(s, s.deciders[e]);
  }

  lemma UserKeeps(digest: Digest, s: State, d: nat, action: UserAction)
    requires Inv(digest, s) && UserStep(s, d, action).Some?
    ensures Inv(digest, UserStep(s, d, action).value)
  {
    hide AuthsInv, RowsInv, RowsDistinct, IsVisible;
    var next := UserStep(s, d, action).value;
    if d in s.deciders {
      assert DeciderInv(s, s.deciders[d]);
    }
    match action
    case Look(a, approve) => SetDecider(digest, s, d, next.deciders[d]);
    case DecideRow(stageActive) => DecideKeeps(digest, s, d, stageActive);
    case DecideError => DropDecider(digest, s, d);
    case Resume(_) => SetDecider(digest, s, d, next.deciders[d]);
    case Forget =>
      SetPending(digest, s, next.pending);
      if d in next.deciders {
        SetDecider(digest, s.(pending := next.pending), d, next.deciders[d]);
      } else {
        DropDecider(digest, s.(pending := next.pending), d);
      }
    case Send => SendKeeps(digest, s, d);
  }

  lemma StepKeeps(digest: Digest, s: State, action: Action)
    requires Inv(digest, s) && Next(digest, s, action).Some?
    ensures Inv(digest, Next(digest, s, action).value)
  {
    hide Inv, AuthStep, UserStep;
    match action
    case Authorize(x, step) => AuthKeeps(digest, s, x, step);
    case User(d, user) => UserKeeps(digest, s, d, user);
    case Other(MoveRun(run, to)) => SetRuns(digest, s, OtherStep(s, action.other).value.runs);
    case Other(RetireRow(a)) => CloseRow(digest, s, a, Denied);
  }

  lemma Invariant(digest: Digest, start: State, schedule: seq<Action>)
    requires Initial(start)
    ensures Inv(digest, After(digest, start, schedule))
  {
    hide Inv, Next;
    forall s, action | Inv(digest, s) && Next(digest, s, action).Some?
      ensures Inv(digest, Next(digest, s, action).value)
    {
      StepKeeps(digest, s, action);
    }
    StartInv(digest, start);
    Always(Machine(digest), s => Inv(digest, s), start, schedule);
  }

  lemma StartInv(digest: Digest, start: State)
    requires Initial(start)
    ensures Inv(digest, start)
  {
  }

  // Main results

  /** A row approves exactly this cell: its own item, its own arguments and their digest. */
  predicate ApprovesCell(digest: Digest, row: Row, x: nat, cell: nat, argument: string) {
    row == Row(x, cell, ItemId(cell), argument, digest(argument), Approved)
  }

  ghost predicate ApprovedRowExists(digest: Digest, rows: seq<Row>, x: nat, cell: nat, argument: string) {
    exists a :: 0 <= a < |rows| && ApprovesCell(digest, rows[a], x, cell, argument)
  }

  /** Success means between 1 and 64 well-formed cells, each with an approved row for its own arguments. */
  lemma SuccessMeansAllApproved(digest: Digest, start: State, schedule: seq<Action>, x: nat)
    requires Initial(start)
    requires var s := After(digest, start, schedule); x in s.auths && s.auths[x].pc == Returned(None)
    ensures var s := After(digest, start, schedule);
            var arguments := s.auths[x].arguments;
            && 1 <= |arguments| <= MAX_CELLS
            && (forall a <- arguments :: ReadText(a).Some?)
            && forall cell | 0 <= cell < |arguments| :: ApprovedRowExists(digest, s.rows, x, cell, arguments[cell])
  {
    hide After, ItemId, RowsDistinct, ChannelInv, DecidersInv;
    Invariant(digest, start, schedule);
    var s := After(digest, start, schedule);
    var auth := s.auths[x];
    assert PcInv(s.rows, x, auth);
    assert GoodMatrix(auth.arguments) && ApprovedBelow(s.rows, x, |auth.arguments|);
    forall cell | 0 <= cell < |auth.arguments|
      ensures ApprovedRowExists(digest, s.rows, x, cell, auth.arguments[cell])
    {
      assert CellApproved(s.rows, x, cell);
      var a :| 0 <= a < |s.rows| && s.rows[a].auth == x && s.rows[a].cell == cell && s.rows[a].status == Approved;
      assert RowInv(digest, s, s.rows[a]);
      assert ApprovesCell(digest, s.rows[a], x, cell, auth.arguments[cell]);
    }
  }

  /** A row is written only after the rows of all cells before its own were approved. */
  ghost predicate Stacked(rows: seq<Row>) {
    forall a | 0 <= a < |rows| :: ApprovedBelow(rows, rows[a].auth, rows[a].cell)
  }

  lemma StackedAppend(rows: seq<Row>, row: Row)
    requires Stacked(rows) && ApprovedBelow(rows, row.auth, row.cell)
    ensures Stacked(rows + [row])
  {
    hide ApprovedBelow;
    forall a | 0 <= a < |rows + [row]|
      ensures ApprovedBelow(rows + [row], (rows + [row])[a].auth, (rows + [row])[a].cell)
    {
      ApprovedAppend(rows, row, (rows + [row])[a].auth, (rows + [row])[a].cell);
    }
  }

  lemma StackedClose(rows: seq<Row>, a: nat, status: RowStatus)
    requires Stacked(rows) && a < |rows| && rows[a].status == Pending
    ensures Stacked(WithStatus(rows, a, status))
  {
    hide ApprovedBelow;
    forall b | 0 <= b < |rows| ensures ApprovedBelow(WithStatus(rows, a, status), rows[b].auth, rows[b].cell) {
      StatusKeepsCells(rows, a, status, rows[b].auth);
    }
  }

  lemma AuthStacked(digest: Digest, s: State, x: nat, action: AuthAction)
    requires Inv(digest, s) && Stacked(s.rows) && AuthStep(digest, s, x, action).Some?
    ensures Stacked(AuthStep(digest, s, x, action).value.rows)
  {
    hide Stacked, RowsInv, RowsDistinct, DecidersInv, ChannelInv, PendingInv, CellApproved, ItemId, AllowedTransitions;
    if x in s.auths {
      var auth := s.auths[x];
      assert PcInv(s.rows, x, auth);
      if auth.pc.RunWaits? && action.CreateVisible? {
        StackedAppend(s.rows, NewRow(digest, x, auth.arguments, 0));
      } else if auth.pc.Expanding? && action.CreateCell? && auth.pc.cell < |auth.arguments| {
        StackedAppend(s.rows, NewRow(digest, x, auth.arguments, auth.pc.cell));
      } else if auth.pc.Approving? && action.ApproveCell? {
        StackedClose(s.rows, auth.pc.row, Approved);
      }
    }
  }

  lemma StepStacked(digest: Digest, s: State, action: Action)
    requires Inv(digest, s) && Stacked(s.rows) && Next(digest, s, action).Some?
    ensures Stacked(Next(digest, s, action).value.rows)
  {
    hide Inv, Stacked, AuthStep, AllowedTransitions;
    match action
    case Authorize(x, step) => AuthStacked(digest, s, x, step);
    case User(d, user) =>
      var next := UserStep(s, d, user).value;
      if next.rows != s.rows {
        var a := s.deciders[d].row;
        StackedClose(s.rows, a, next.rows[a].status);
      }
    case Other(MoveRun(_, _)) =>
    case Other(RetireRow(a)) => StackedClose(s.rows, a, Denied);
  }

  lemma StackedAlways(digest: Digest, start: State, schedule: seq<Action>)
    requires Initial(start)
    ensures var s := After(digest, start, schedule); Inv(digest, s) && Stacked(s.rows)
  {
    hide Inv, Next, Stacked;
    forall s: State, action | Inv(digest, s) && Stacked(s.rows) && Next(digest, s, action).Some?
      ensures Inv(digest, Next(digest, s, action).value) && Stacked(Next(digest, s, action).value.rows)
    {
      StepKeeps(digest, s, action);
      StepStacked(digest, s, action);
    }
    StartInv(digest, start);
    NothingStacked(start);
    Always(Machine(digest), (s: State) => Inv(digest, s) && Stacked(s.rows), start, schedule);
  }

  lemma NothingStacked(start: State)
    requires Initial(start)
    ensures Stacked(start.rows)
  {
  }

  /**
    In every reachable state, whatever became of the authorization: a row of some
    cell means approved rows for all cells before it, the visible one first.
   */
  lemma CellsFollowTheVisibleApproval(digest: Digest, start: State, schedule: seq<Action>, a: nat)
    requires Initial(start) && a < |After(digest, start, schedule).rows|
    ensures var s := After(digest, start, schedule);
            forall cell | 0 <= cell < s.rows[a].cell :: CellApproved(s.rows, s.rows[a].auth, cell)
  {
    hide After, Inv;
    StackedAlways(digest, start, schedule);
  }

  /**
    A denied visible row stays the only one of its authorization, whether the
    denial was reported or the restore after it failed.
   */
  lemma DenialLeavesOnlyTheVisibleCell(digest: Digest, start: State, schedule: seq<Action>, x: nat, a: nat, b: nat)
    requires Initial(start)
    requires var s := After(digest, start, schedule);
             && a < |s.rows| && IsVisible(s.rows, x, a) && s.rows[a].status == Denied
             && b < |s.rows| && s.rows[b].auth == x
    ensures b == a
  {
    hide After, AuthsInv, RowsInv, DecidersInv, PendingInv;
    StackedAlways(digest, start, schedule);
    OnlyVisible(After(digest, start, schedule).rows, x, a, b);
  }

  lemma OnlyVisible(rows: seq<Row>, x: nat, a: nat, b: nat)
    requires Stacked(rows) && RowsDistinct(rows)
    requires IsVisible(rows, x, a) && rows[a].status == Denied && b < |rows| && rows[b].auth == x
    ensures b == a
  {
    hide CellApproved;
    assert ApprovedBelow(rows, x, rows[b].cell);
    NotApproved(rows, x, a);
  }

  lemma NotApproved(rows: seq<Row>, x: nat, a: nat)
    requires RowsDistinct(rows) && IsVisible(rows, x, a) && rows[a].status != Approved
    ensures !CellApproved(rows, x, 0)
  {
  }

  /** A reported denial means such a row: the visible one was denied, and there is no other. */
  lemma ReportedDenialIsDurable(digest: Digest, start: State, schedule: seq<Action>, x: nat)
    requires Initial(start)
    requires var s := After(digest, start, schedule); x in s.auths && s.auths[x].pc == Returned(Some(DeniedByUser))
    ensures var s := After(digest, start, schedule);
            && VisibleDenied(s.rows, x)
            && forall b | 0 <= b < |s.rows| && s.rows[b].auth == x :: s.rows[b].cell == 0
  {
    hide After, RowsInv, RowsDistinct, ChannelInv, DecidersInv;
    Invariant(digest, start, schedule);
    var s := After(digest, start, schedule);
    assert PcInv(s.rows, x, s.auths[x]);
  }

  /** Each decision channel takes at most one value, so sending on it never blocks. */
  lemma DecisionsSentOnce(digest: Digest, start: State, schedule: seq<Action>, x: nat, d: nat)
    requires Initial(start)
    ensures var s := After(digest, start, schedule);
            && (x in s.auths ==> s.auths[x].sends <= 1 && |s.auths[x].channel| <= 1)
            && (d in s.deciders && s.deciders[d].Sending? ==> UserStep(s, d, Send).Some?)
  {
    hide After, RowsInv, RowsDistinct;
    Invariant(digest, start, schedule);
    var s := After(digest, start, schedule);
    if x in s.auths {
      assert ChannelInv(s.rows, x, s.auths[x]);
    }
    if d in s.deciders && s.deciders[d].Sending? {
      SendKeeps(digest, s, d);
    }
  }

  /** The rows of one authorization have distinct item ids. */
  lemma ItemsAreDistinct(digest: Digest, start: State, schedule: seq<Action>, a: nat, b: nat)
    requires Initial(start)
    requires var s := After(digest, start, schedule);
             a < b < |s.rows| && s.rows[a].auth == s.rows[b].auth
    ensures After(digest, start, schedule).rows[a].item != After(digest, start, schedule).rows[b].item
  {
    hide After, ItemId, AuthsInv, DecidersInv;
    Invariant(digest, start, schedule);
    var s := After(digest, start, schedule);
    assert RowInv(digest, s, s.rows[a]) && RowInv(digest, s, s.rows[b]);
    if s.rows[a].item == s.rows[b].item {
      ItemIdsDistinct(s.rows[a].cell, s.rows[b].cell);
    }
  }

  // Whole authorizations

  /** The steps up to the visible row, for a run that is collecting. */
  function Asking(x: nat, run: nat, arguments: seq<string>): seq<Action> {
    [Authorize(x, AuthAction.Begin(run, arguments)), Authorize(x, Check), Authorize(x, EnterWait)]
    + [Authorize(x, CreateVisible), Authorize(x, Register)]
  }

  function AskedState(digest: Digest, s: State, x: nat, run: nat, arguments: seq<string>): State
    requires GoodMatrix(arguments) && run in s.runs
  {
    var a := |s.rows|;
    s.(auths := s.auths[x := Auth(run, arguments, Awaiting(a), [], 0)],
       rows := s.rows + [NewRow(digest, x, arguments, 0)], pending := s.pending[a := x],
       runs := s.runs[run := s.runs[run] + [WaitingApproval]])
  }

  lemma OneStep(digest: Digest, s: State, action: Action)
    ensures Execute(Machine(digest), s, [action]) == Advance(Machine(digest), s, action)
  {
    FirstStep(Machine(digest), s, action, []);
    assert [action] + [] == [action];
  }

  lemma TwoSteps(digest: Digest, s: State, a: Action, b: Action)
    ensures Execute(Machine(digest), s, [a, b]) == Advance(Machine(digest), Advance(Machine(digest), s, a), b)
  {
    FirstStep(Machine(digest), s, a, [b]);
    OneStep(digest, Advance(Machine(digest), s, a), b);
    assert [a] + [b] == [a, b];
  }

  /** An authorization puts up one row, for cell zero, and its run waits. */
  lemma AuthorizationAsks(digest: Digest, s: State, x: nat, run: nat, arguments: seq<string>)
    requires x !in s.auths && StatusOf(s, run) == Some(Collecting) && GoodMatrix(arguments)
    ensures Execute(Machine(digest), s, Asking(x, run, arguments)) == AskedState(digest, s, x, run, arguments)
  {
    hide Next, ItemId, GoodMatrix;
    var next, p := Machine(digest), Asking(x, run, arguments);
    TwoParts(next, s, p[..3], p[3..]);
    assert p[..3] + p[3..] == p && p[..3] == [p[0], p[1], p[2]] && p[3..] == [p[3], p[4]];
    ThreeSteps(next, s, p[0], p[1], p[2]);
    WaitEntered(digest, s, x, run, arguments);
    var s3 := Advance(next, Advance(next, Advance(next, s, p[0]), p[1]), p[2]);
    TwoSteps(digest, s3, p[3], p[4]);
    RowPutUp(digest, s, s3, x, run, arguments);
  }

  lemma WaitEntered(digest: Digest, s: State, x: nat, run: nat, arguments: seq<string>)
    requires x !in s.auths && StatusOf(s, run) == Some(Collecting) && GoodMatrix(arguments)
    ensures var next, p := Machine(digest), Asking(x, run, arguments);
            Advance(next, Advance(next, Advance(next, s, p[0]), p[1]), p[2]) ==
            s.(auths := s.auths[x := Auth(run, arguments, RunWaits, [], 0)],
               runs := s.runs[run := s.runs[run] + [WaitingApproval]])
  {
    hide GoodMatrix;
    var next, p := Machine(digest), Asking(x, run, arguments);
    var s1 := s.(auths := s.auths[x := Auth(run, arguments, Starting, [], 0)]);
    assert Advance(next, s, p[0]) == s1;
    var s2 := s.(auths := s.auths[x := Auth(run, arguments, RunRead(|s.runs[run]| - 1), [], 0)]);
    assert s1.auths[x := s2.auths[x]] == s2.auths;
    assert Advance(next, s1, p[1]) == s2;
    assert s2.auths[x := Auth(run, arguments, RunWaits, [], 0)] ==
           s.auths[x := Auth(run, arguments, RunWaits, [], 0)];
  }

  lemma RowPutUp(digest: Digest, s: State, s3: State, x: nat, run: nat, arguments: seq<string>)
    requires GoodMatrix(arguments) && run in s.runs
    requires s3 == s.(auths := s.auths[x := Auth(run, arguments, RunWaits, [], 0)],
                      runs := s.runs[run := s.runs[run] + [WaitingApproval]])
    ensures var next, p := Machine(digest), Asking(x, run, arguments);
            Advance(next, Advance(next, s3, p[3]), p[4]) == AskedState(digest, s, x, run, arguments)
  {
    hide ItemId;
    var next, p := Machine(digest), Asking(x, run, arguments);
    MatrixHasCells(arguments);
    var s4 := s3.(auths := s.auths[x := Auth(run, arguments, Created(|s.rows|), [], 0)],
                  rows := s.rows + [NewRow(digest, x, arguments, 0)]);
    assert s3.auths[x := s4.auths[x]] == s4.auths;
    assert Advance(next, s3, p[3]) == s4;
    var a := Auth(run, arguments, Awaiting(|s.rows|), [], 0);
    assert s4.auths[x := a] == s.auths[x := a];
  }

  lemma MatrixHasCells(arguments: seq<string>)
    requires GoodMatrix(arguments)
    ensures 1 <= |arguments| <= 64
  {
  }

  /** A matrix is refused exactly when it is empty, has more than 64 cells or a cell that is no JSON text. */
  lemma MatricesAreChecked(digest: Digest, s: State, x: nat, run: nat, arguments: seq<string>)
    requires x !in s.auths && StatusOf(s, run) == Some(Collecting)
    ensures var steps := [Authorize(x, AuthAction.Begin(run, arguments)), Authorize(x, Check)];
            var end := Execute(Machine(digest), s, steps);
            && x in end.auths && end.rows == s.rows && end.runs == s.runs
            && end.auths[x].pc ==
               if 1 <= |arguments| <= 64 && forall a <- arguments :: ReadText(a).Some? then
                 RunRead(|s.runs[run]| - 1)
               else Returned(Some(BadMatrix))
  {
    hide ReadText;
    TwoSteps(digest, s, Authorize(x, AuthAction.Begin(run, arguments)), Authorize(x, Check));
  }

  /** The user's decision on the visible row, with its run resumed or not, up to the send. */
  function Answering(x: nat, d: nat, a: nat, approve: bool, works: bool): seq<Action> {
    [User(d, Look(a, approve)), User(d, DecideRow(true)), User(d, Resume(works))]
    + [User(d, Forget), User(d, Send), Authorize(x, Receive)]
  }

  /** Whether the user's decision reaches the authorization, and what it says then. */
  lemma DecisionArrives(digest: Digest, s: State, x: nat, d: nat, a: nat, approve: bool, works: bool)
    requires d !in s.deciders && a in s.pending && s.pending[a] == x && RowPending(s, a)
    requires x in s.auths && s.auths[x].pc == Awaiting(a) && s.auths[x].channel == []
    requires StatusOf(s, s.auths[x].run) == Some(WaitingApproval)
    ensures var end := Execute(Machine(digest), s, Answering(x, d, a, approve, works));
            && end.rows == s.rows[a := s.rows[a].(status := if approve then Approved else Denied)]
            && end.deciders == s.deciders && end.pending == s.pending - {a} && end.runs == s.runs
            && end.auths == s.auths[x := s.auths[x].(
                              channel := [], sends := s.auths[x].sends + 1,
                              pc := if !works then Returned(Some(StoreError))
                                    else if approve then Expanding(1)
                                    else Returned(Some(DeniedByUser)))]
  {
    hide Next, StatusOf;
    var next, p := Machine(digest), Answering(x, d, a, approve, works);
    TwoParts(next, s, p[..3], p[3..]);
    assert p[..3] + p[3..] == p && p[..3] == [p[0], p[1], p[2]] && p[3..] == [p[3], p[4], p[5]];
    ThreeSteps(next, s, p[0], p[1], p[2]);
    DecisionTaken(digest, s, x, d, a, approve, works);
    var s3 := Advance(next, Advance(next, Advance(next, s, p[0]), p[1]), p[2]);
    ThreeSteps(next, s3, p[3], p[4], p[5]);
    DecisionSent(digest, s3, x, d, a);
    assert s3.deciders - {d} == s.deciders;
  }

  lemma DecisionTaken(digest: Digest, s: State, x: nat, d: nat, a: nat, approve: bool, works: bool)
    requires d !in s.deciders && a in s.pending && s.pending[a] == x && RowPending(s, a)
    requires x in s.auths && StatusOf(s, s.auths[x].run) == Some(WaitingApproval)
    ensures var next, p := Machine(digest), Answering(x, d, a, approve, works);
            Advance(next, Advance(next, Advance(next, s, p[0]), p[1]), p[2]) ==
            s.(rows := s.rows[a := s.rows[a].(status := if approve then Approved else Denied)],
               deciders := s.deciders[d := Forgetting(a, x, Some(
                                             if !works then RestoreFailed
                                             else if approve then Accepted
                                             else Refused))])
  {
    var next, p := Machine(digest), Answering(x, d, a, approve, works);
    var s1 := s.(deciders := s.deciders[d := Looked(a, x, approve)]);
    assert Advance(next, s, p[0]) == s1;
    var s2 := s.(rows := s.rows[a := s.rows[a].(status := if approve then Approved else Denied)],
                 deciders := s.deciders[d := Decided(a, x, approve)]);
    assert s1.deciders[d := Decided(a, x, approve)] == s.deciders[d := Decided(a, x, approve)];
    assert Advance(next, s1, p[1]) == s2;
    var outcome := Some(if !works then RestoreFailed else if approve then Accepted else Refused);
    assert s2.deciders[d := Forgetting(a, x, outcome)] == s.deciders[d := Forgetting(a, x, outcome)];
  }

  lemma DecisionSent(digest: Digest, s: State, x: nat, d: nat, a: nat)
    requires d in s.deciders && s.deciders[d].Forgetting? && s.deciders[d].row == a && s.deciders[d].auth == x
    requires s.deciders[d].outcome.Some?
    requires x in s.auths && s.auths[x].pc == Awaiting(a) && s.auths[x].channel == []
    ensures var next, decision := Machine(digest), s.deciders[d].outcome.value;
            Advance(next, Advance(next, Advance(next, s, User(d, Forget)), User(d, Send)), Authorize(x, Receive)) ==
            s.(pending := s.pending - {a}, deciders := s.deciders - {d},
               auths := s.auths[x := s.auths[x].(
                                  channel := [], sends := s.auths[x].sends + 1,
                                  pc := match decision
                                        case Accepted => Expanding(1)
                                        case Refused => Returned(Some(DeniedByUser))
                                        case RestoreFailed => Returned(Some(StoreError)))])
  {
    var next, decision := Machine(digest), s.deciders[d].outcome.value;
    var s1 := s.(pending := s.pending - {a}, deciders := s.deciders[d := Sending(a, x, decision)]);
    assert Advance(next, s, User(d, Forget)) == s1;
    var sent := s.auths[x].(channel := [decision], sends := s.auths[x].sends + 1);
    var s2 := s.(pending := s.pending - {a}, deciders := s.deciders - {d}, auths := s.auths[x := sent]);
    assert s1.deciders - {d} == s.deciders - {d};
    assert Advance(next, s1, User(d, Send)) == s2;
    assert sent.channel[1..] == [];
  }

  /**
    A decision that comes too late, or for a run that no longer waits or whose
    stage is over, reaches nobody: a pending row is retired, the entry and the
    decider are gone, and the authorization has not been told.
   */
  lemma LateDecisionsAreForgotten(digest: Digest, s: State, d: nat, stageActive: bool)
    requires d in s.deciders && s.deciders[d].Looked?
    requires var Looked(a, x, _) := s.deciders[d];
             RowPending(s, a) ==>
               !stageActive || x !in s.auths || StatusOf(s, s.auths[x].run) != Some(WaitingApproval)
    ensures var a := s.deciders[d].row;
            Execute(Machine(digest), s, [User(d, DecideRow(stageActive)), User(d, Forget)]) ==
            s.(rows := if RowPending(s, a) then s.rows[a := s.rows[a].(status := Denied)] else s.rows,
               pending := s.pending - {a}, deciders := s.deciders - {d})
  {
    var next, a, x := Machine(digest), s.deciders[d].row, s.deciders[d].auth;
    TwoSteps(digest, s, User(d, DecideRow(stageActive)), User(d, Forget));
    var s1 := s.(rows := if RowPending(s, a) then s.rows[a := s.rows[a].(status := Denied)] else s.rows,
                 deciders := s.deciders[d := Forgetting(a, x, None)]);
    assert Advance(next, s, User(d, DecideRow(stageActive))) == s1;
    assert s1.deciders - {d} == s.deciders - {d};
  }

  /** The rows of all cells from this one on, approved. */
  function CellRows(digest: Digest, x: nat, arguments: seq<string>, cell: nat): seq<Row>
    decreases |arguments| - cell
  {
    if cell >= |arguments| then []
    else [NewRow(digest, x, arguments, cell).(status := Approved)] + CellRows(digest, x, arguments, cell + 1)
  }

  function Expansion(x: nat, cells: nat): seq<Action> {
    if cells == 0 then [Authorize(x, CreateCell)]
    else [Authorize(x, CreateCell), Authorize(x, ApproveCell)] + Expansion(x, cells - 1)
  }

  /** After an acceptance the remaining cells get their approved rows, in order, and the authorization succeeds. */
  lemma {:induction false} ExpansionSucceeds(digest: Digest, s: State, x: nat, cell: nat)
    requires x in s.auths && s.auths[x].pc == Expanding(cell) && cell <= |s.auths[x].arguments|
    ensures var arguments := s.auths[x].arguments;
            Execute(Machine(digest), s, Expansion(x, |arguments| - cell)) ==
            s.(rows := s.rows + CellRows(digest, x, arguments, cell),
               auths := s.auths[x := s.auths[x].(pc := Returned(None))])
    decreases |s.auths[x].arguments| - cell
  {
    hide Next, NewRow;
    var next, arguments := Machine(digest), s.auths[x].arguments;
    if cell == |arguments| {
      OneStep(digest, s, Authorize(x, CreateCell));
      assert s.rows + [] == s.rows;
      AllExpanded(digest, s, x, cell);
    } else {
      var pair := [Authorize(x, CreateCell), Authorize(x, ApproveCell)];
      TwoParts(next, s, pair, Expansion(x, |arguments| - cell - 1));
      TwoSteps(digest, s, pair[0], pair[1]);
      CellExpands(digest, s, x, cell);
      var approved := NewRow(digest, x, arguments, cell).(status := Approved);
      var s2 := s.(auths := s.auths[x := s.auths[x].(pc := Expanding(cell + 1))], rows := s.rows + [approved]);
      ExpansionSucceeds(digest, s2, x, cell + 1);
      var rest := CellRows(digest, x, arguments, cell + 1);
      assert s.rows + [approved] + rest == s.rows + ([approved] + rest);
      assert s2.auths[x := s2.auths[x].(pc := Returned(None))] == s.auths[x := s.auths[x].(pc := Returned(None))];
    }
  }

  lemma AllExpanded(digest: Digest, s: State, x: nat, cell: nat)
    requires x in s.auths && s.auths[x].pc == Expanding(cell) && cell == |s.auths[x].arguments|
    ensures Advance(Machine(digest), s, Authorize(x, CreateCell)) ==
            s.(auths := s.auths[x := s.auths[x].(pc := Returned(None))])
  {
  }

  lemma CellExpands(digest: Digest, s: State, x: nat, cell: nat)
    requires x in s.auths && s.auths[x].pc == Expanding(cell) && cell < |s.auths[x].arguments|
    ensures var next, arguments := Machine(digest), s.auths[x].arguments;
            Advance(next, Advance(next, s, Authorize(x, CreateCell)), Authorize(x, ApproveCell)) ==
            s.(auths := s.auths[x := s.auths[x].(pc := Expanding(cell + 1))],
               rows := s.rows + [NewRow(digest, x, arguments, cell).(status := Approved)])
  {
    hide ItemId;
    var next, row := Machine(digest), NewRow(digest, x, s.auths[x].arguments, cell);
    var s1 := s.(auths := s.auths[x := s.auths[x].(pc := Approving(cell, |s.rows|))], rows := s.rows + [row]);
    assert Advance(next, s, Authorize(x, CreateCell)) == s1;
    assert s1.rows[|s.rows| := row.(status := Approved)] == s.rows + [row.(status := Approved)];
    assert s1.auths[x := s1.auths[x].(pc := Expanding(cell + 1))] ==
           s.auths[x := s.auths[x].(pc := Expanding(cell + 1))];
  }
}
