/**
  The pending-call table of the JSON-RPC client: callers, the one reader that
  dispatches responses and finally drains the table, cancellation and failing
  writes, interleaved at their critical sections and channel operations.
 */
module RpcCalls {
  import opened Wrappers
  import opened Schedules

  datatype Error = ProcessExited | Closed | WriteError | Cancelled

  /** What a response message says: its result, or the error of the server. */
  datatype Reply = Returned(result: string) | Refused(error: string)

  /** What is sent on a response channel; an answer carries the id of its message. */
  datatype Response = Answer(id: nat, reply: Reply) | Terminal(error: Error)

  // The table behind the state lock

  /** Channels are numbered in the order they are made. */
  datatype Table = Table(pending: map<nat, nat>, terminal: Option<Error>)

  function Registered(t: Table, id: nat, channel: nat): Table {
    if t.terminal.Some? then t else t.(pending := t.pending[id := channel])
  }

  function Removed(t: Table, id: nat, channel: nat): Table {
    if id in t.pending && t.pending[id] == channel then t.(pending := t.pending - {id}) else t
  }

  function Taken(t: Table, id: nat): Table {
    t.(pending := t.pending - {id})
  }

  function Terminated(error: Error): Table {
    Table(map[], Some(error))
  }

  /** The client's critical sections under the state lock. */
  class CallTable {
    var pending: map<nat, nat>
    var terminal: Option<Error>

    function Value(): Table
      reads this
    {
      Table(pending, terminal)
    }

    constructor ()
      ensures Value() == Table(map[], None)
    {
      pending, terminal := map[], None;
    }

    /** The first half of call. */
    method Register(id: nat, channel: nat) returns (refused: Option<Error>)
      modifies this
      ensures Value() == Registered(old(Value()), id, channel)
      ensures refused == old(terminal)
    {
      if terminal.Some? {
        return terminal;
      }
      pending := pending[id := channel];
      return None;
    }

    /** removePending: only the caller's own channel is removed. */
    method RemovePending(id: nat, channel: nat)
      modifies this
      ensures Value() == Removed(old(Value()), id, channel)
    {
      if id in pending && pending[id] == channel {
        pending := pending - {id};
      }
    }

    /** The locked part of dispatch. */
    method Take(id: nat) returns (channel: Option<nat>)
      modifies this
      ensures Value() == Taken(old(Value()), id)
      ensures channel == if id in old(pending) then Some(old(pending)[id]) else None
    {
      if id in pending {
        channel := Some(pending[id]);
        pending := pending - {id};
      } else {
        channel := None;
      }
    }

    /** The locked part of finish; closing says that the caller asked for the end. */
    method Terminate(closing: bool) returns (drained: map<nat, nat>)
      modifies this
      ensures Value() == Terminated(if closing then Closed else ProcessExited)
      ensures drained == old(pending)
    {
      terminal := Some(if closing then Closed else ProcessExited);
      drained := pending;
      pending := map[];
    }
  }

  // Interleaving

  /** A channel of capacity one; sends counts every send it ever took. */
  datatype Channel = Channel(id: nat, buffer: seq<Response>, sends: nat)

  datatype Outcome = Received(response: Response) | Failed(error: Error)

  datatype CallPC =
    | Numbered(id: nat, channel: nat)
    | Written(id: nat, channel: nat)       // registered, about to write the request
    | Waiting(id: nat, channel: nat)
    | Removing(id: nat, channel: nat, error: Error)
    | Finished(id: nat, channel: nat, outcome: Outcome)

  datatype ReaderPC =
    | Reading
    | Sending(channel: nat, response: Response)
    | Draining(todo: map<nat, nat>, error: Error)
    | Stopped

  datatype State = State(
    lastId: nat,
    table: Table,
    channels: seq<Channel>,
    calls: map<nat, CallPC>,
    reader: ReaderPC,
    done: bool)

  const START := State(0, Table(map[], None), [], map[], Reading, false)

  datatype CallAction =
    | Begin              // take the next id and make a channel
    | Register
    | Write(ok: bool)
    | Receive
    | Cancel
    | SeeDone
    | Remove

  datatype ReaderAction =
    | Message(id: nat, result: string, error: Option<string>)
    | Send
    | Finish(closing: bool)
    | DrainOne(id: nat)
    | CloseDone

  datatype Action = Call(c: nat, call: CallAction) | Reader(step: ReaderAction)

  function CallStep(s: State, c: nat, action: CallAction): (next: Option<State>) {
    if c !in s.calls then
      if action.Begin? then
        Some(s.(lastId := s.lastId + 1, channels := s.channels + [Channel(s.lastId + 1, [], 0)],
                calls := s.calls[c := Numbered(s.lastId + 1, |s.channels|)]))
      else None
    else
      match s.calls[c]
      case Numbered(id, ch) =>
        if !action.Register? then None
        else if s.table.terminal.Some? then
          Some(s.(calls := s.calls[c := Finished(id, ch, Failed(s.table.terminal.value))]))
        else Some(s.(table := Registered(s.table, id, ch), calls := s.calls[c := Written(id, ch)]))
      case Written(id, ch) =>
        if !action.Write? then None
        else if action.ok then Some(s.(calls := s.calls[c := Waiting(id, ch)]))
        else Some(s.(calls := s.calls[c := Removing(id, ch, WriteError)]))
      case Waiting(id, ch) =>
        if action.Receive? && ch < |s.channels| && s.channels[ch].buffer != [] then
          Some(s.(channels := s.channels[ch := s.channels[ch].(buffer := s.channels[ch].buffer[1..])],
                  calls := s.calls[c := Finished(id, ch, Received(s.channels[ch].buffer[0]))]))
        else if action.Cancel? then Some(s.(calls := s.calls[c := Removing(id, ch, Cancelled)]))
        else if action.SeeDone? && s.done && s.table.terminal.Some? then
          Some(s.(calls := s.calls[c := Removing(id, ch, s.table.terminal.value)]))
        else None
      case Removing(id, ch, error) =>
        if action.Remove? then
          Some(s.(table := Removed(s.table, id, ch), calls := s.calls[c := Finished(id, ch, Failed(error))]))
        else None
      case Finished(_, _, _) => None
  }

  /** A send on a full channel would block: no step. */
  predicate HasRoom(s: State, ch: nat) {
    ch < |s.channels| && s.channels[ch].buffer == []
  }

  function Put(s: State, ch: nat, response: Response): State
    requires ch < |s.channels|
  {
    var channel := s.channels[ch];
    s.(channels := s.channels[ch := channel.(buffer := channel.buffer + [response], sends := channel.sends + 1)])
  }

  function ReaderStep(s: State, action: ReaderAction): (next: Option<State>) {
    match s.reader
    case Reading =>
      if action.Message? then
        if action.id in s.table.pending then
          var reply := if action.error.Some? then Refused(action.error.value) else Returned(action.result);
          Some(s.(table := Taken(s.table, action.id),
                  reader := Sending(s.table.pending[action.id], Answer(action.id, reply))))
        else Some(s)
      else if action.Finish? then
        var error := if action.closing then Closed else ProcessExited;
        Some(s.(table := Terminated(error), reader := Draining(s.table.pending, error)))
      else None
    case Sending(ch, response) =>
      if action.Send? && HasRoom(s, ch) then Some(Put(s, ch, response).(reader := Reading)) else None
    case Draining(todo, error) =>
      if action.DrainOne? && action.id in todo && HasRoom(s, todo[action.id]) then
        Some(Put(s, todo[action.id], Terminal(error)).(reader := Draining(todo - {action.id}, error)))
      else if action.CloseDone? && todo == map[] then Some(s.(done := true, reader := Stopped))
      else None
    case Stopped => None
  }

  function Next(s: State, action: Action): Option<State> {
    match action
    case Call(c, call) => CallStep(s, c, call)
    case Reader(step) => ReaderStep(s, step)
  }

  function After(schedule: seq<Action>): State {
    Execute(Next, START, schedule)
  }

  // The invariant

  /** Ids are handed out in order, one per channel; at most one send ever reaches a channel, for its own id. */
  predicate ChannelInv(channel: Channel) {
    && |channel.buffer| <= channel.sends <= 1
    && forall r <- channel.buffer :: r.Answer? ==> r.id == channel.id
  }

  predicate ChannelsInv(s: State) {
    && s.lastId == |s.channels|
    && forall ch | 0 <= ch < |s.channels| :: s.channels[ch].id == ch + 1 && ChannelInv(s.channels[ch])
  }

  /** The channel belongs to this id and has not been sent to. */
  predicate Unsent(s: State, id: nat, ch: nat) {
    ch < |s.channels| && s.channels[ch].id == id && s.channels[ch].sends == 0
  }

  predicate TableInv(s: State) {
    && (forall id | id in s.table.pending :: Unsent(s, id, s.table.pending[id]))
    && (s.table.terminal.Some? ==> s.table.pending == map[])
    && (s.table.terminal.Some? <==> s.reader.Draining? || s.reader.Stopped?)
    && (s.done <==> s.reader.Stopped?)
  }

  predicate ReaderInv(s: State) {
    match s.reader
    case Reading => true
    case Sending(ch, response) => response.Answer? && Unsent(s, response.id, ch) && response.id !in s.table.pending
    case Draining(todo, error) => s.table.terminal == Some(error) && forall id | id in todo :: Unsent(s, id, todo[id])
    case Stopped => true
  }

  /** The call will be woken: its id is still pending, its response is on the way, or it has arrived. */
  predicate InReach(s: State, id: nat, ch: nat) {
    || (id in s.table.pending && s.table.pending[id] == ch)
    || (s.reader.Sending? && s.reader.channel == ch)
    || (s.reader.Draining? && id in s.reader.todo && s.reader.todo[id] == ch)
    || (ch < |s.channels| && s.channels[ch].buffer != [])
  }

  /** Nobody but its caller knows the id. */
  predicate Private(s: State, id: nat, ch: nat) {
    && Unsent(s, id, ch)
    && id !in s.table.pending
    && !(s.reader.Sending? && s.reader.channel == ch)
    && !(s.reader.Draining? && id in s.reader.todo)
  }

  predicate CallInv(s: State, pc: CallPC) {
    && pc.channel < |s.channels| && s.channels[pc.channel].id == pc.id
    && match pc
       case Numbered(id, ch) => Private(s, id, ch)
       case Written(id, ch) => InReach(s, id, ch)
       case Waiting(id, ch) => InReach(s, id, ch)
       case Removing(_, _, _) => true
       case Finished(id, ch, outcome) =>
         id !in s.table.pending &&
         (outcome.Received? ==>
            s.channels[ch].sends == 1 && s.channels[ch].buffer == []
            && (outcome.response.Answer? ==> outcome.response.id == id))
  }

  predicate CallsInv(s: State) {
    && (forall c | c in s.calls :: CallInv(s, s.calls[c]))
    && (forall c, d | c in s.calls && d in s.calls && c != d :: s.calls[c].channel != s.calls[d].channel)
  }

  predicate Inv(s: State) {
    ChannelsInv(s) && TableInv(s) && ReaderInv(s) && CallsInv(s)
  }

  /** A step of one call that changes only where that call stands. */
  lemma MoveCall(s: State, c: nat, pc: CallPC)
    requires Inv(s) && CallInv(s, pc)
    requires forall d | d in s.calls && d != c :: s.calls[d].channel != pc.channel
    ensures Inv(s.(calls := s.calls[c := pc]))
  {
    var next := s.(calls := s.calls[c := pc]);
    assert ChannelsInv(next) && TableInv(next) && ReaderInv(next);
    forall d | d in next.calls ensures CallInv(next, next.calls[d]) {
      assert CallInv(s, next.calls[d]);
    }
  }

  /** A new id and its channel are known to nobody yet. */
  lemma NewChannel(s: State)
    requires Inv(s)
    ensures var next := s.(lastId := s.lastId + 1, channels := s.channels + [Channel(s.lastId + 1, [], 0)]);
            Inv(next) && Private(next, s.lastId + 1, |s.channels|)
            && forall d | d in s.calls :: s.calls[d].channel != |s.channels|
  {
    var next := s.(lastId := s.lastId + 1, channels := s.channels + [Channel(s.lastId + 1, [], 0)]);
    assert ChannelsInv(next);
    assert TableInv(next) && ReaderInv(next);
    forall d | d in next.calls ensures CallInv(next, next.calls[d]) {
      assert CallInv(s, s.calls[d]);
    }
  }

  lemma RegisterKeeps(s: State, c: nat)
    requires Inv(s) && c in s.calls && s.calls[c].Numbered?
    ensures Inv(CallStep(s, c, Register).value)
  {
    var pc := s.calls[c];
    assert CallInv(s, pc);
    if s.table.terminal.Some? {
      MoveCall(s, c, Finished(pc.id, pc.channel, Failed(s.table.terminal.value)));
    } else {
      var next := CallStep(s, c, Register).value;
      assert ChannelsInv(next) && TableInv(next) && ReaderInv(next);
      forall d | d in next.calls ensures CallInv(next, next.calls[d]) {
        if d != c {
          assert CallInv(s, s.calls[d]) && s.calls[d].id != pc.id;
        }
      }
    }
  }

  lemma RemoveKeeps(s: State, c: nat)
    requires Inv(s) && c in s.calls && s.calls[c].Removing?
    ensures Inv(CallStep(s, c, Remove).value)
  {
    var pc := s.calls[c];
    assert CallInv(s, pc);
    var next := CallStep(s, c, Remove).value;
    assert ChannelsInv(next) && TableInv(next) && ReaderInv(next);
    forall d | d in next.calls ensures CallInv(next, next.calls[d]) {
      if d != c {
        assert CallInv(s, s.calls[d]) && s.calls[d].id != pc.id;
      }
    }
  }

  lemma ReceiveKeeps(s: State, c: nat)
    requires Inv(s) && CallStep(s, c, Receive).Some?
    ensures Inv(CallStep(s, c, Receive).value)
  {
    var pc := s.calls[c];
    assert CallInv(s, pc);
    var next := CallStep(s, c, Receive).value;
    assert s.channels[pc.channel].buffer[1..] == [];
    assert ChannelsInv(next);
    assert TableInv(next);
    assert ReaderInv(next);
    forall d | d in next.calls ensures CallInv(next, next.calls[d]) {
      if d != c {
        assert CallInv(s, s.calls[d]) && s.calls[d].channel != pc.channel;
      }
    }
  }

  lemma CallKeeps(s: State, c: nat, action: CallAction)
    requires Inv(s) && CallStep(s, c, action).Some?
    ensures Inv(CallStep(s, c, action).value)
  {
    hide ChannelsInv, TableInv, ReaderInv;
    if c !in s.calls {
      NewChannel(s);
      var made := s.(lastId := s.lastId + 1, channels := s.channels + [Channel(s.lastId + 1, [], 0)]);
      MoveCall(made, c, Numbered(s.lastId + 1, |s.channels|));
    } else {
      var pc := s.calls[c];
      assert CallInv(s, pc);
      match action
      case Register => RegisterKeeps(s, c);
      case Receive => ReceiveKeeps(s, c);
      case Remove => RemoveKeeps(s, c);
      case Write(ok) =>
        MoveCall(s, c, if ok then Waiting(pc.id, pc.channel) else Removing(pc.id, pc.channel, WriteError));
      case Cancel => MoveCall(s, c, Removing(pc.id, pc.channel, Cancelled));
      case SeeDone => MoveCall(s, c, Removing(pc.id, pc.channel, s.table.terminal.value));
    }
  }

  lemma ReadingKeeps(s: State, action: ReaderAction)
    requires Inv(s) && s.reader.Reading? && ReaderStep(s, action).Some?
    ensures Inv(ReaderStep(s, action).value)
  {
    var next := ReaderStep(s, action).value;
    assert ChannelsInv(next);
    assert TableInv(next);
    assert ReaderInv(next);
    forall d | d in next.calls ensures CallInv(next, next.calls[d]) {
      assert CallInv(s, s.calls[d]);
    }
  }

  lemma SendingKeeps(s: State, action: ReaderAction)
    requires Inv(s) && s.reader.Sending? && ReaderStep(s, action).Some?
    ensures Inv(ReaderStep(s, action).value)
  {
    var next := ReaderStep(s, action).value;
    assert ChannelsInv(next);
    assert TableInv(next);
    assert ReaderInv(next);
    forall d | d in next.calls ensures CallInv(next, next.calls[d]) {
      assert CallInv(s, s.calls[d]);
    }
  }

  lemma DrainingKeeps(s: State, action: ReaderAction)
    requires Inv(s) && s.reader.Draining? && ReaderStep(s, action).Some?
    ensures Inv(ReaderStep(s, action).value)
  {
    var next := ReaderStep(s, action).value;
    assert ChannelsInv(next);
    assert TableInv(next);
    assert ReaderInv(next);
    forall d | d in next.calls ensures CallInv(next, next.calls[d]) {
      assert CallInv(s, s.calls[d]);
    }
  }

  lemma ReaderKeeps(s: State, action: ReaderAction)
    requires Inv(s) && ReaderStep(s, action).Some?
    ensures Inv(ReaderStep(s, action).value)
  {
    hide Inv;
    match s.reader
    case Reading => ReadingKeeps(s, action);
    case Sending(_, _) => SendingKeeps(s, action);
    case Draining(_, _) => DrainingKeeps(s, action);
    case Stopped =>
  }

  lemma StepKeeps(s: State, action: Action)
    requires Inv(s) && Next(s, action).Some?
    ensures Inv(Next(s, action).value)
  {
    hide Inv, CallStep, ReaderStep;
    match action
    case Call(c, call) => CallKeeps(s, c, call);
    case Reader(step) => ReaderKeeps(s, step);
  }

  lemma Invariant(schedule: seq<Action>)
    ensures Inv(After(schedule))
  {
    hide Next;
    forall s, action | Inv(s) && Next(s, action).Some? ensures Inv(Next(s, action).value) {
      StepKeeps(s, action);
    }
    Always(Next, Inv, START, schedule);
  }

  // Main results

  /** A channel is sent to at most once over a whole run, and what waits in it carries its own id. */
  lemma OneResponsePerChannel(schedule: seq<Action>, ch: nat)
    requires ch < |After(schedule).channels|
    ensures var channel := After(schedule).channels[ch];
            && channel.sends <= 1 && |channel.buffer| <= 1
            && forall r <- channel.buffer :: r.Answer? ==> r.id == channel.id
  {
    hide After, TableInv, ReaderInv, CallsInv;
    Invariant(schedule);
  }

  /** The reader never blocks on a channel: until it has stopped, it can take a step on its own. */
  lemma ReaderNeverBlocks(schedule: seq<Action>)
    ensures var s := After(schedule);
            && (s.reader.Sending? ==> ReaderStep(s, Send).Some?)
            && (s.reader.Draining? ==>
                  if s.reader.todo == map[] then ReaderStep(s, CloseDone).Some?
                  else forall id | id in s.reader.todo :: ReaderStep(s, DrainOne(id)).Some?)
  {
    hide After, CallsInv;
    Invariant(schedule);
  }

  // What reaches a caller, and why

  /** At step k the reader read this message and found its id pending, with this channel. */
  predicate ReadFor(schedule: seq<Action>, k: nat, id: nat, ch: nat) {
    && k < |schedule| && schedule[k].Reader? && schedule[k].step.Message? && schedule[k].step.id == id
    && var s := After(schedule[..k]);
       s.reader.Reading? && id in s.table.pending && s.table.pending[id] == ch
  }

  /** At step k the reader read the end of the connection. */
  predicate EndedAt(schedule: seq<Action>, k: nat) {
    && k < |schedule| && schedule[k].Reader? && schedule[k].step.Finish? && After(schedule[..k]).reader.Reading?
  }

  /** The message read at step k carries this reply. */
  predicate Carries(schedule: seq<Action>, k: nat, reply: Reply) {
    && k < |schedule| && schedule[k].Reader? && schedule[k].step.Message?
    && match schedule[k].step.error
       case Some(error) => reply == Refused(error)
       case None => reply == Returned(schedule[k].step.result)
  }

  /** The response is what was read for this channel: its message, or the end of the connection. */
  ghost predicate Earned(schedule: seq<Action>, ch: nat, response: Response) {
    match response
    case Answer(id, reply) => exists k: nat :: ReadFor(schedule, k, id, ch) && Carries(schedule, k, reply)
    case Terminal(error) => EndedWith(schedule, error)
  }

  ghost predicate EndedWith(schedule: seq<Action>, error: Error) {
    exists k: nat ::
      EndedAt(schedule, k) && (if schedule[k].step.closing then error == Closed else error == ProcessExited)
  }

  /** The step at which a call failed by itself. */
  ghost predicate FailedBy(schedule: seq<Action>, c: nat, error: Error) {
    match error
    case WriteError => Call(c, Write(false)) in schedule
    case Cancelled => Call(c, Cancel) in schedule
    case _ => EndedWith(schedule, error)
  }

  ghost predicate AllEarned(schedule: seq<Action>, s: State) {
    && (forall ch, r | 0 <= ch < |s.channels| && r in s.channels[ch].buffer :: Earned(schedule, ch, r))
    && (s.reader.Sending? ==> Earned(schedule, s.reader.channel, s.reader.response))
    && (s.reader.Draining? ==> EndedWith(schedule, s.reader.error))
    && (s.table.terminal.Some? ==> EndedWith(schedule, s.table.terminal.value))
    && (forall c | c in s.calls && s.calls[c].Removing? :: FailedBy(schedule, c, s.calls[c].error))
    && (forall c | c in s.calls && s.calls[c].Finished? ::
          Accounted(schedule, c, s.calls[c].channel, s.calls[c].outcome))
  }

  ghost predicate Accounted(schedule: seq<Action>, c: nat, ch: nat, outcome: Outcome) {
    match outcome
    case Received(response) => Earned(schedule, ch, response)
    case Failed(error) => FailedBy(schedule, c, error)
  }

  /** What was earned stays earned when the schedule goes on. */
  lemma EarnedStays(schedule: seq<Action>, action: Action)
    ensures forall ch, r :: Earned(schedule, ch, r) ==> Earned(schedule + [action], ch, r)
    ensures forall error :: EndedWith(schedule, error) ==> EndedWith(schedule + [action], error)
    ensures forall c, error :: FailedBy(schedule, c, error) ==> FailedBy(schedule + [action], c, error)
    ensures forall c, ch, outcome ::
              Accounted(schedule, c, ch, outcome) ==> Accounted(schedule + [action], c, ch, outcome)
  {
    hide After;
    var longer := schedule + [action];
    assert forall k | 0 <= k < |schedule| :: longer[..k] == schedule[..k] && longer[k] == schedule[k];
    assert forall k, id, ch :: ReadFor(schedule, k, id, ch) ==> ReadFor(longer, k, id, ch);
    assert forall k, reply :: Carries(schedule, k, reply) ==> Carries(longer, k, reply);
    assert forall k :: EndedAt(schedule, k) ==> EndedAt(longer, k);
    forall error | EndedWith(schedule, error) ensures EndedWith(longer, error) {
      var k: nat :| EndedAt(schedule, k)
            && (if schedule[k].step.closing then error == Closed else error == ProcessExited);
      assert EndedAt(longer, k);
    }
  }

  lemma CallEarns(schedule: seq<Action>, c: nat, action: CallAction)
    requires var s := After(schedule); AllEarned(schedule, s) && CallStep(s, c, action).Some?
    ensures AllEarned(schedule + [Call(c, action)], CallStep(After(schedule), c, action).value)
  {
    hide After, Earned;
    var s, longer := After(schedule), schedule + [Call(c, action)];
    EarnedStays(schedule, Call(c, action));
    assert Call(c, action) in longer;
    assert forall error :: EndedWith(longer, error) ==> FailedBy(longer, c, error);
    hide EndedWith;
    var next := CallStep(s, c, action).value;
    forall ch, r | 0 <= ch < |next.channels| && r in next.channels[ch].buffer ensures Earned(longer, ch, r) {
      assert ch < |s.channels| && r in s.channels[ch].buffer;
    }
  }

  lemma ReaderEarns(schedule: seq<Action>, action: ReaderAction)
    requires var s := After(schedule); AllEarned(schedule, s) && ReaderStep(s, action).Some?
    ensures AllEarned(schedule + [Reader(action)], ReaderStep(After(schedule), action).value)
  {
    hide After;
    var s, longer := After(schedule), schedule + [Reader(action)];
    EarnedStays(schedule, Reader(action));
    assert longer[..|schedule|] == schedule && longer[|schedule|] == Reader(action);
    if s.reader.Reading? && action.Message? && action.id in s.table.pending {
      assert ReadFor(longer, |schedule|, action.id, s.table.pending[action.id]);
    }
    if s.reader.Reading? && action.Finish? {
      assert EndedAt(longer, |schedule|);
    }
  }

  lemma {:induction false} Earnings(schedule: seq<Action>)
    ensures AllEarned(schedule, After(schedule))
    decreases |schedule|
  {
    hide AllEarned, CallStep, ReaderStep;
    if schedule == [] {
      assert AllEarned(schedule, START) by {
        NothingEarned();
      }
    } else {
      var init, action := schedule[..|schedule| - 1], schedule[|schedule| - 1];
      assert schedule == init + [action];
      Earnings(init);
      if Next(After(init), action).None? {
        EarningsStay(init, action);
      } else {
        match action
        case Call(c, call) => CallEarns(init, c, call);
        case Reader(step) => ReaderEarns(init, step);
      }
    }
  }

  lemma NothingEarned()
    ensures AllEarned([], START)
  {
  }

  lemma EarningsStay(schedule: seq<Action>, action: Action)
    requires AllEarned(schedule, After(schedule))
    ensures AllEarned(schedule + [action], After(schedule))
  {
    hide After, Earned, EndedWith, FailedBy, Accounted;
    EarnedStays(schedule, action);
  }

  /**
    A caller receives exactly what the reader read for it: the reply of a message
    that carried its id while its own entry was in the table, or the terminal
    error of the end of the connection.
   */
  lemma AnswersReachTheirCaller(schedule: seq<Action>, c: nat)
    requires var s := After(schedule); c in s.calls && s.calls[c].Finished? && s.calls[c].outcome.Received?
    ensures var pc := After(schedule).calls[c];
            match pc.outcome.response
            case Answer(id, reply) =>
              id == pc.id && exists k: nat :: ReadFor(schedule, k, pc.id, pc.channel) && Carries(schedule, k, reply)
            case Terminal(error) => EndedWith(schedule, error)
  {
    hide After, ChannelsInv, TableInv, ReaderInv, ReadFor, Carries, EndedWith;
    Invariant(schedule);
    Earnings(schedule);
    assert CallInv(After(schedule), After(schedule).calls[c]);
  }

  /** A call that fails was cancelled, could not be written, or came after the end of the connection. */
  lemma FailuresHaveTheirCause(schedule: seq<Action>, c: nat)
    requires var s := After(schedule); c in s.calls && s.calls[c].Finished? && s.calls[c].outcome.Failed?
    ensures match After(schedule).calls[c].outcome.error
            case WriteError => Call(c, Write(false)) in schedule
            case Cancelled => Call(c, Cancel) in schedule
            case error => EndedWith(schedule, error)
  {
    hide After, Earned, EndedWith;
    Earnings(schedule);
  }

  /** No other message is ever read for the same channel. */
  lemma ReadOnce(schedule: seq<Action>, j: nat, k: nat, id: nat, ch: nat)
    requires ReadFor(schedule, j, id, ch) && ReadFor(schedule, k, id, ch)
    ensures j == k
  {
    if j < k {
      ReadOnceInOrder(schedule, j, k, id, ch);
    } else if k < j {
      ReadOnceInOrder(schedule, k, j, id, ch);
    }
  }

  /** The id was taken out of the table: nobody will register it again. */
  predicate Spent(s: State, id: nat) {
    && id <= s.lastId && id !in s.table.pending
    && forall c | c in s.calls && s.calls[c].Numbered? :: s.calls[c].id != id
  }

  lemma StaysSpent(s: State, action: Action, id: nat)
    requires Spent(s, id) && Next(s, action).Some?
    ensures Spent(Next(s, action).value, id)
  {
  }

  lemma ReadOnceInOrder(schedule: seq<Action>, j: nat, k: nat, id: nat, ch: nat)
    requires ReadFor(schedule, j, id, ch) && j < k
    ensures !ReadFor(schedule, k, id, ch)
  {
    hide Next;
    if k < |schedule| {
      Spending(schedule, j, id, ch);
      var more := schedule[j + 1..k];
      assert schedule[..j + 1] + more == schedule[..k];
      TwoParts(Next, START, schedule[..j + 1], more);
      forall s, action | Spent(s, id) && Next(s, action).Some? ensures Spent(Next(s, action).value, id) {
        StaysSpent(s, action, id);
      }
      Always(Next, s => Spent(s, id), After(schedule[..j + 1]), more);
    }
  }

  lemma Spending(schedule: seq<Action>, j: nat, id: nat, ch: nat)
    requires ReadFor(schedule, j, id, ch)
    ensures Spent(After(schedule[..j + 1]), id)
  {
    assert schedule[..j + 1][..j] == schedule[..j];
    Invariant(schedule[..j]);
    var s := After(schedule[..j]);
    assert After(schedule[..j + 1]) == Next(s, schedule[j]).value;
    assert forall c | c in s.calls :: CallInv(s, s.calls[c]);
  }

  // What a caller can count on

  /** While the reader reads, a waiting call without a response gets the next message with its id. */
  lemma WaitingCallIsAnswered(schedule: seq<Action>, c: nat, result: string, error: Option<string>)
    requires var s := After(schedule);
             c in s.calls && s.calls[c].Waiting? && s.reader.Reading? && CallStep(s, c, Receive).None?
    ensures var pc := After(schedule).calls[c];
            var end := After(schedule + [Reader(Message(pc.id, result, error)), Reader(Send), Call(c, Receive)]);
            && c in end.calls
            && end.calls[c] == Finished(pc.id, pc.channel, Received(Answer(
                                 pc.id, if error.Some? then Refused(error.value) else Returned(result))))
            && end.reader == Reading && end.table == Taken(After(schedule).table, pc.id)
  {
    hide After;
    WaitingCallsAreWoken(schedule, c);
    Invariant(schedule);
    var s := After(schedule);
    var pc := s.calls[c];
    Composed(schedule, [Reader(Message(pc.id, result, error)), Reader(Send), Call(c, Receive)]);
    ThreeSteps(Next, s, Reader(Message(pc.id, result, error)), Reader(Send), Call(c, Receive));
    assert Unsent(s, pc.id, pc.channel);
  }

  lemma Composed(schedule: seq<Action>, more: seq<Action>)
    ensures After(schedule + more) == Execute(Next, After(schedule), more)
  {
    TwoParts(Next, START, schedule, more);
  }

  /** When the connection ends, it gets the terminal error. */
  lemma WaitingCallIsEnded(schedule: seq<Action>, c: nat, closing: bool)
    requires var s := After(schedule);
             c in s.calls && s.calls[c].Waiting? && s.reader.Reading? && CallStep(s, c, Receive).None?
    ensures var pc := After(schedule).calls[c];
            var end := After(schedule + [Reader(Finish(closing)), Reader(DrainOne(pc.id)), Call(c, Receive)]);
            && c in end.calls
            && end.calls[c] ==
               Finished(pc.id, pc.channel, Received(Terminal(if closing then Closed else ProcessExited)))
  {
    hide After;
    WaitingCallsAreWoken(schedule, c);
    Invariant(schedule);
    var s := After(schedule);
    var pc := s.calls[c];
    Composed(schedule, [Reader(Finish(closing)), Reader(DrainOne(pc.id)), Call(c, Receive)]);
    ThreeSteps(Next, s, Reader(Finish(closing)), Reader(DrainOne(pc.id)), Call(c, Receive));
    assert Unsent(s, pc.id, pc.channel);
  }

  /** Until then a new call is registered under the next id and waits for it. */
  lemma CallsBegin(schedule: seq<Action>, c: nat)
    requires var s := After(schedule); c !in s.calls && s.table.terminal.None?
    ensures var s := After(schedule);
            var end := After(schedule + [Call(c, Begin), Call(c, Register), Call(c, Write(true))]);
            && end.lastId == s.lastId + 1 && end.reader == s.reader
            && end.calls == s.calls[c := Waiting(end.lastId, |s.channels|)]
            && end.table == Table(s.table.pending[end.lastId := |s.channels|], None)
            && end.channels == s.channels + [Channel(end.lastId, [], 0)]
  {
    hide After;
    var s := After(schedule);
    Composed(schedule, [Call(c, Begin), Call(c, Register), Call(c, Write(true))]);
    ThreeSteps(Next, s, Call(c, Begin), Call(c, Register), Call(c, Write(true)));
  }

  /** A call can be withdrawn while it waits, and its entry is then gone. */
  lemma WaitingCallIsWithdrawn(schedule: seq<Action>, c: nat)
    requires var s := After(schedule); c in s.calls && s.calls[c].Waiting?
    ensures var s := After(schedule);
            var end := After(schedule + [Call(c, Cancel)] + [Call(c, Remove)]);
            && end.calls == s.calls[c := Finished(s.calls[c].id, s.calls[c].channel, Failed(Cancelled))]
            && end.table == Removed(s.table, s.calls[c].id, s.calls[c].channel)
  {
    var before := schedule + [Call(c, Cancel)];
    var all := before + [Call(c, Remove)];
    assert before[..|schedule|] == schedule && all[..|before|] == before;
    var s := After(schedule);
    var pc := s.calls[c];
    assert After(before) == s.(calls := s.calls[c := Removing(pc.id, pc.channel, Cancelled)]);
    var removing := s.calls[c := Removing(pc.id, pc.channel, Cancelled)];
    var finished := Finished(pc.id, pc.channel, Failed(Cancelled));
    assert removing[c := finished] == s.calls[c := finished];
  }

  /** Calls have their own ids and channels. */
  lemma CallsAreSeparate(schedule: seq<Action>, c: nat, d: nat)
    requires var s := After(schedule); c in s.calls && d in s.calls && c != d
    ensures var s := After(schedule); s.calls[c].id != s.calls[d].id && s.calls[c].channel != s.calls[d].channel
  {
    hide After, TableInv, ReaderInv;
    Invariant(schedule);
    var s := After(schedule);
    assert CallInv(s, s.calls[c]) && CallInv(s, s.calls[d]);
  }

  /**
    Once the reader has begun to finish, the table is empty and stays so: a call
    that has not registered yet can only fail, with the terminal error.
   */
  lemma NothingRegistersAfterFinish(schedule: seq<Action>, c: nat)
    ensures var s := After(schedule);
            s.table.terminal.Some? ==>
              && s.table.pending == map[]
              && (c in s.calls && s.calls[c].Numbered? ==>
                    && CallStep(s, c, Register).Some?
                    && CallStep(s, c, Register).value.table == s.table
                    && CallStep(s, c, Register).value.calls[c].outcome == Failed(s.table.terminal.value))
  {
    hide After, ChannelsInv, ReaderInv, CallsInv;
    Invariant(schedule);
  }

  /** The terminal error is set once: from then on, no step changes it or the empty table. */
  lemma FinishIsFinal(schedule: seq<Action>, action: Action)
    ensures var s := After(schedule);
            s.table.terminal.Some? && Next(s, action).Some? ==> Next(s, action).value.table == s.table
  {
    hide After, ChannelsInv, ReaderInv, CallsInv;
    Invariant(schedule);
  }

  /**
    No waiting call is stranded. Its response has come, is in the reader's
    hands, or the reader still reads and will find the call under its id; once
    the reader has stopped, the call can always go on by itself.
   */
  lemma WaitingCallsAreWoken(schedule: seq<Action>, c: nat)
    requires var s := After(schedule); c in s.calls && s.calls[c].Waiting?
    ensures var s := After(schedule);
            var pc := s.calls[c];
            match s.reader
            case Reading =>
              CallStep(s, c, Receive).Some? || (pc.id in s.table.pending && s.table.pending[pc.id] == pc.channel)
            case Sending(ch, _) =>
              CallStep(s, c, Receive).Some? || ch == pc.channel ||
              (pc.id in s.table.pending && s.table.pending[pc.id] == pc.channel)
            case Draining(todo, _) => CallStep(s, c, Receive).Some? || (pc.id in todo && todo[pc.id] == pc.channel)
            case Stopped => CallStep(s, c, Receive).Some? && CallStep(s, c, SeeDone).Some?
  {
    hide After, ChannelsInv;
    Invariant(schedule);
    var s := After(schedule);
    assert CallInv(s, s.calls[c]);
  }

  /** No entry leaks: after a call has returned, its id is not in the table. */
  lemma FinishedCallsLeaveNothing(schedule: seq<Action>, c: nat)
    requires var s := After(schedule); c in s.calls && s.calls[c].Finished?
    ensures After(schedule).calls[c].id !in After(schedule).table.pending
  {
    hide After, ChannelsInv, TableInv, ReaderInv;
    Invariant(schedule);
    assert CallInv(After(schedule), After(schedule).calls[c]);
  }

  // The table object follows the schedules

  /** The critical section a step goes through, if any. */
  datatype Section =
    | Registering(id: nat, channel: nat)
    | RemovingPending(id: nat, channel: nat)
    | Taking(id: nat)
    | Terminating(closing: bool)
    | NoSection

  function SectionOf(s: State, action: Action): Section {
    match action
    case Call(c, call) =>
      if c !in s.calls then NoSection
      else if s.calls[c].Numbered? && call.Register? then Registering(s.calls[c].id, s.calls[c].channel)
      else if s.calls[c].Removing? && call.Remove? then RemovingPending(s.calls[c].id, s.calls[c].channel)
      else NoSection
    case Reader(step) =>
      if !s.reader.Reading? then NoSection
      else if step.Message? then Taking(step.id)
      else if step.Finish? then Terminating(step.closing)
      else NoSection
  }

  function Performed(t: Table, section: Section): Table {
    match section
    case Registering(id, channel) => Registered(t, id, channel)
    case RemovingPending(id, channel) => Removed(t, id, channel)
    case Taking(id) => Taken(t, id)
    case Terminating(closing) => Terminated(if closing then Closed else ProcessExited)
    case NoSection => t
  }

  /** Steps change the table only through its critical sections. */
  lemma StepsUseSections(s: State, action: Action)
    requires Next(s, action).Some?
    ensures Next(s, action).value.table == Performed(s.table, SectionOf(s, action))
  {
    if action.Reader? && s.reader.Reading? && action.step.Message? && action.step.id !in s.table.pending {
      assert s.table.pending - {action.step.id} == s.table.pending;
    }
  }

  /** A step of a caller or the reader, on the table object they share. */
  method Perform(table: CallTable, section: Section)
    modifies table
    ensures table.Value() == Performed(old(table.Value()), section)
  {
    match section
    case Registering(id, channel) => var _ := table.Register(id, channel);
    case RemovingPending(id, channel) => table.RemovePending(id, channel);
    case Taking(id) => var _ := table.Take(id);
    case Terminating(closing) => var _ := table.Terminate(closing);
    case NoSection =>
  }

  /** After any schedule the table object holds what the interleaving says. */
  method FollowSchedule(table: CallTable, schedule: seq<Action>)
    requires table.Value() == START.table
    modifies table
    ensures table.Value() == After(schedule).table
  {
    hide Next, SectionOf, Performed;
    var s := START;
    for k := 0 to |schedule|
      invariant s == After(schedule[..k]) && table.Value() == s.table
    {
      assert schedule[..k + 1][..k] == schedule[..k];
      var next := Next(s, schedule[k]);
      if next.Some? {
        StepsUseSections(s, schedule[k]);
        Perform(table, SectionOf(s, schedule[k]));
        s := next.value;
      }
    }
    assert schedule[..|schedule|] == schedule;
  }
}
