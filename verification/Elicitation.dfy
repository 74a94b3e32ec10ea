/**
  The binder between MCP tool calls and the elicitation requests that ask to
  approve them: two maps that stay inverse to each other, and a binding that is
  made only when it is unambiguous.
 */
module Elicitation {
  import opened Wrappers
  import opened Text
  import opened JsonText
  import opened CanonicalJson

  datatype Identity = Identity(thread: string, turn: string, item: string)

  /** A running tool call; an empty key means that no request is bound to it. */
  datatype ToolCall = ToolCall(
    identity: Identity, server: string, tool: string, arguments: string, canonical: string, key: string)

  datatype Book = Book(calls: map<Identity, ToolCall>, bindings: map<string, Identity>)

  const EMPTY := Book(map[], map[])

  // Request ids

  datatype RequestId = Name(text: string) | Number(value: int)

  /** The id a JSON-RPC message carries: a non-empty string or an integer of 64 bits. */
  function RequestIdOf(raw: string): Option<RequestId> {
    match ReadText(raw)
    case Some(DStr(text)) => if text != "" then Some(Name(text)) else None
    case Some(DNum(text)) =>
      var value :- Atoi(text);
      if MIN_INT64 <= value <= MAX_INT64 then Some(Number(value)) else None
    case _ => None
  }

  function FormatInt(n: int): string {
    if n < 0 then "-" + Decimal(-n) else Decimal(n)
  }

  function RequestKey(id: RequestId): string {
    match id
    case Name(text) => "s:" + text
    case Number(value) => "i:" + FormatInt(value)
  }

  lemma FormatIntSign(n: int)
    ensures FormatInt(n) != "" && (FormatInt(n)[0] == '-' <==> n < 0)
    ensures DigitsValue(if n < 0 then FormatInt(n)[1..] else FormatInt(n)) == if n < 0 then -n else n
  {
    DecimalValue(if n < 0 then -n else n);
  }

  lemma FormatIntInjective(m: int, n: int)
    requires FormatInt(m) == FormatInt(n)
    ensures m == n
  {
    FormatIntSign(m);
    FormatIntSign(n);
  }

  /** Different ids have different keys, and no key is the empty one. */
  lemma RequestKeysInjective(a: RequestId, b: RequestId)
    ensures RequestKey(a) != ""
    ensures RequestKey(a) == RequestKey(b) ==> a == b
  {
    if RequestKey(a) == RequestKey(b) {
      assert RequestKey(a)[0] == RequestKey(b)[0];
      assert RequestKey(a)[2..] == RequestKey(b)[2..];
      if a.Name? {
        assert RequestKey(a)[2..] == a.text && RequestKey(b)[2..] == b.text;
      } else {
        assert RequestKey(a)[2..] == FormatInt(a.value) && RequestKey(b)[2..] == FormatInt(b.value);
        FormatIntInjective(a.value, b.value);
      }
    }
  }

  // Which raw texts are ids

  lemma {:induction false} DigitsAreIntegers(digits: string)
    requires AllDigits(digits)
    ensures NumberFrom(Integer, digits)
  {
    if digits != "" {
      assert IsDigit(digits[0]);
      DigitsAreIntegers(digits[1..]);
    }
  }

  lemma {:induction false} DecimalStarts(n: nat)
    ensures Decimal(n)[0] == '0' ==> n == 0
  {
    if n >= 10 {
      DecimalStarts(n / 10);
      assert Decimal(n)[0] == Decimal(n / 10)[0];
    }
  }

  lemma DecimalsAreNumbers(n: nat)
    ensures NumberFrom(Begin, Decimal(n)) && NumberFrom(Minus, Decimal(n))
  {
    DecimalStarts(n);
    var digits := Decimal(n);
    assert IsDigit(digits[0]) && AllDigits(digits[1..]);
    if n == 0 {
      assert digits[1..] == "" && NumberFrom(Zero, "");
    } else {
      DigitsAreIntegers(digits[1..]);
    }
  }

  lemma IntegersAreNumbers(n: int)
    ensures ValidNumber(FormatInt(n)) && ReadText(FormatInt(n)) == Some(DNum(FormatInt(n)))
  {
    DecimalsAreNumbers(if n < 0 then -n else n);
    if n < 0 {
      assert FormatInt(n)[1..] == Decimal(-n);
    }
    ReadNumberWritten(FormatInt(n), "");
    assert FormatInt(n) + "" == FormatInt(n);
  }

  lemma IntegersAreParsed(n: int)
    ensures Atoi(FormatInt(n)) == Some(n)
  {
    FormatIntSign(n);
    if n < 0 {
      assert DropSign(FormatInt(n)) == Decimal(-n);
    } else {
      assert IsDigit(Decimal(n)[0]);
      assert DropSign(FormatInt(n)) == Decimal(n);
    }
  }

  /** The integers of 64 bits are ids, and no other integers. */
  lemma IntegerIds(n: int)
    ensures RequestIdOf(FormatInt(n)) ==
            if -0x8000_0000_0000_0000 <= n < 0x8000_0000_0000_0000 then Some(Number(n)) else None
  {
    hide FormatInt, ReadText, Atoi;
    IntegersAreNumbers(n);
    IntegersAreParsed(n);
  }

  /** The strings are ids, in whatever spelling, except the empty one; an id means what was read. */
  lemma NameIds(raw: string)
    ensures ReadText(raw).Some? && ReadText(raw).value.DStr? ==>
              RequestIdOf(raw) == (if ReadText(raw).value.s == "" then None else Some(Name(ReadText(raw).value.s)))
    ensures RequestIdOf(raw).Some? ==>
              && ReadText(raw).Some?
              && match RequestIdOf(raw).value
                 case Name(text) => ReadText(raw).value == DStr(text)
                 case Number(n) => ReadText(raw).value.DNum? && Atoi(ReadText(raw).value.text) == Some(n)
  {
    hide ReadText, Atoi;
  }

  // What each operation does to the book

  /** Bound calls and request keys name each other. */
  ghost predicate Bijection(b: Book) {
    && (forall id | id in b.calls :: b.calls[id].identity == id)
    && (forall k | k in b.bindings :: k != "" && b.bindings[k] in b.calls && b.calls[b.bindings[k]].key == k)
    && (forall id | id in b.calls && b.calls[id].key != "" ::
          b.calls[id].key in b.bindings && b.bindings[b.calls[id].key] == id)
  }

  function Removed(b: Book, id: Identity): Book {
    if id !in b.calls then b
    else Book(b.calls - {id}, if b.calls[id].key != "" then b.bindings - {b.calls[id].key} else b.bindings)
  }

  /** A known identity is kept when it is announced again alike, and dropped when it is announced differently. */
  function Tracked(b: Book, call: ToolCall): Book {
    if call.identity in b.calls then
      var previous := b.calls[call.identity];
      if previous.server == call.server && previous.tool == call.tool && previous.canonical == call.canonical then b
      else Removed(b, call.identity)
    else b.(calls := b.calls[call.identity := call])
  }

  predicate OfTurn(id: Identity, thread: string, turn: string) {
    id.thread == thread && id.turn == turn
  }

  /** Without these calls and what is bound to them. */
  function Without(b: Book, ids: set<Identity>): Book {
    Book(b.calls - ids, map k | k in b.bindings && b.bindings[k] !in ids :: b.bindings[k])
  }

  function CallsOf(b: Book, thread: string, turn: string): set<Identity> {
    set id | id in b.calls && OfTurn(id, thread, turn)
  }

  function RemovedTurn(b: Book, thread: string, turn: string): Book {
    Without(b, CallsOf(b, thread, turn))
  }

  lemma WithoutOneMore(b: Book, ids: set<Identity>, id: Identity)
    requires Bijection(b) && id in b.calls && id !in ids
    ensures Removed(Without(b, ids), id) == Without(b, ids + {id})
  {
    assert b.calls - (ids + {id}) == b.calls - ids - {id};
  }

  lemma WithoutNone(b: Book)
    ensures Without(b, {}) == b
  {
  }

  function RemovedRequest(b: Book, key: string, thread: string): Book {
    if key in b.bindings && b.bindings[key].thread == thread then Removed(b, b.bindings[key]) else b
  }

  datatype Query = Query(thread: string, turn: string, server: string, canonical: string)

  predicate Fits(call: ToolCall, q: Query) {
    OfTurn(call.identity, q.thread, q.turn) && call.server == q.server && call.canonical == q.canonical
  }

  function Matches(b: Book, q: Query): set<Identity> {
    set id | id in b.calls && Fits(b.calls[id], q)
  }

  /** The one call the request is bound to, if it may be bound at all. */
  ghost predicate Binds(b: Book, q: Query, key: string, id: Identity) {
    key !in b.bindings && Matches(b, q) == {id} && b.calls[id].key == ""
  }

  function BoundTo(b: Book, key: string, id: Identity): Book
    requires id in b.calls
  {
    Book(b.calls[id := b.calls[id].(key := key)], b.bindings[key := id])
  }

  class ElicitationState {
    var calls: map<Identity, ToolCall>
    var bindings: map<string, Identity>

    ghost function Value(): Book
      reads this
    {
      Book(calls, bindings)
    }

    constructor ()
      ensures Value() == EMPTY
    {
      calls, bindings := map[], map[];
    }

    method Track(call: ToolCall)
      modifies this
      ensures Value() == Tracked(old(Value()), call)
    {
      if call.identity in calls {
        var previous := calls[call.identity];
        if previous.server == call.server && previous.tool == call.tool && previous.canonical == call.canonical {
          return;
        }
        RemoveCall(call.identity);
        return;
      }
      calls := calls[call.identity := call];
    }

    method RemoveCall(id: Identity)
      modifies this
      ensures Value() == Removed(old(Value()), id)
    {
      if id in calls {
        var call := calls[id];
        calls := calls - {id};
        if call.key != "" {
          bindings := bindings - {call.key};
        }
      }
    }

    /** Counts the calls that fit, in any order, and gives up at the second. */
    method UniqueUnboundCall(q: Query, key: string) returns (match_: Option<ToolCall>)
      requires Bijection(Value()) && key != ""
      modifies this
      ensures match_.None? ==> Value() == old(Value()) && forall id :: !Binds(old(Value()), q, key, id)
      ensures match_.Some? ==>
                && Binds(old(Value()), q, key, match_.value.identity)
                && Value() == BoundTo(old(Value()), key, match_.value.identity)
                && match_.value == calls[match_.value.identity]
    {
      match_ := None;
      if key in bindings {
        return;
      }
      var todo := calls.Keys;
      var found: Option<ToolCall> := None;
      ghost var all := Matches(Value(), q);
      while todo != {}
        invariant todo <= calls.Keys && Value() == old(Value()) && match_ == None
        invariant found.None? ==> all - todo == {}
        invariant found.Some? ==>
                    found.value.identity in calls && found.value == calls[found.value.identity]
                    && all - todo == {found.value.identity}
        decreases todo
      {
        var id :| id in todo;
        if Fits(calls[id], q) {
          if found.Some? {
            assert found.value.identity in all && id in all && id != found.value.identity;
            return;
          }
          found := Some(calls[id]);
        }
        todo := todo - {id};
      }
      if found.None? || found.value.key != "" {
        return;
      }
      var bound := found.value.(key := key);
      calls := calls[bound.identity := bound];
      bindings := bindings[key := bound.identity];
      match_ := Some(bound);
    }

    method RemoveTurn(thread: string, turn: string)
      requires Bijection(Value())
      modifies this
      ensures Value() == RemovedTurn(old(Value()), thread, turn)
    {
      hide Bijection, Without;
      ghost var before := Value();
      ghost var gone: set<Identity> := {};
      WithoutNone(before);
      var todo := calls.Keys;
      while todo != {}
        invariant todo <= before.calls.Keys && Value() == Without(before, gone)
        invariant gone + (set id | id in todo && OfTurn(id, thread, turn)) == CallsOf(before, thread, turn)
        invariant gone !! todo
        decreases todo
      {
        var id :| id in todo;
        if OfTurn(id, thread, turn) {
          WithoutOneMore(before, gone, id);
          RemoveCall(id);
          gone := gone + {id};
        }
        todo := todo - {id};
      }
      assert gone == CallsOf(before, thread, turn);
    }

    method RemoveRequest(key: string, thread: string)
      modifies this
      ensures Value() == RemovedRequest(old(Value()), key, thread)
    {
      if key in bindings && bindings[key].thread == thread {
        RemoveCall(bindings[key]);
      }
    }

    method Clear()
      modifies this
      ensures Value() == EMPTY
    {
      calls, bindings := map[], map[];
    }
  }

  // Histories

  /** The messages of a session that reach the binder; arguments and ids as raw JSON. */
  datatype Message =
    | ItemStarted(thread: string, turn: string, item: string, server: string, tool: string, arguments: string)
    | ItemCompleted(thread: string, turn: string, item: string)
    | TurnCompleted(thread: string, turn: string)
    | RequestResolved(thread: string, requestId: string)
    | Requested(thread: string, turn: string, server: string, toolParams: string, requestId: string)
    | SessionFinished

  /** The request as the binder sees it; None when it is declined before the book is asked. */
  function QueryOf(m: Message): Option<Query>
    requires m.Requested?
  {
    if m.thread == "" || m.turn == "" || m.server == "" || RequestIdOf(m.requestId).None? then None
    else
      match Canonical(m.toolParams)
      case Ok(canonical) => Some(Query(m.thread, m.turn, m.server, canonical))
      case Err(_) => None
  }

  function CallOf(m: Message): Option<ToolCall>
    requires m.ItemStarted?
  {
    if m.thread == "" || m.turn == "" || m.item == "" || m.server == "" || m.tool == "" then None
    else
      match Canonical(m.arguments)
      case Ok(canonical) =>
        Some(ToolCall(Identity(m.thread, m.turn, m.item), m.server, m.tool, m.arguments, canonical, ""))
      case Err(_) => None
  }

  /** The request of this message is bound to this call. */
  ghost predicate BindsRequest(b: Book, m: Message, id: Identity) {
    && m.Requested? && QueryOf(m).Some?
    && Binds(b, QueryOf(m).value, RequestKey(RequestIdOf(m.requestId).value), id)
  }

  ghost function Applied(b: Book, m: Message): Book {
    match m
    case ItemStarted(_, _, _, _, _, _) => if CallOf(m).Some? then Tracked(b, CallOf(m).value) else b
    case ItemCompleted(thread, turn, item) =>
      if thread != "" && turn != "" && item != "" then Removed(b, Identity(thread, turn, item)) else b
    case TurnCompleted(thread, turn) => if thread != "" && turn != "" then RemovedTurn(b, thread, turn) else b
    case RequestResolved(thread, requestId) =>
      if thread != "" && RequestIdOf(requestId).Some? then
        RemovedRequest(b, RequestKey(RequestIdOf(requestId).value), thread)
      else b
    case Requested(_, _, _, _, requestId) =>
      if id :| BindsRequest(b, m, id) then BoundTo(b, RequestKey(RequestIdOf(requestId).value), id) else b
    case SessionFinished => EMPTY
  }

  ghost function After(history: seq<Message>): Book {
    if history == [] then EMPTY else Applied(After(history[..|history| - 1]), history[|history| - 1])
  }

  /** The maps are inverse to each other, and calls carry the canonical form of their arguments. */
  ghost predicate Consistent(b: Book) {
    Bijection(b) && forall id | id in b.calls :: Canonical(b.calls[id].arguments) == Ok(b.calls[id].canonical)
  }

  lemma RemovedKeeps(b: Book, id: Identity)
    requires Consistent(b)
    ensures Consistent(Removed(b, id))
  {
    hide Canonical;
  }

  lemma RemovedTurnKeeps(b: Book, thread: string, turn: string)
    requires Consistent(b)
    ensures Consistent(RemovedTurn(b, thread, turn))
  {
    hide Canonical;
  }

  lemma TrackedKeeps(b: Book, call: ToolCall)
    requires Consistent(b) && call.key == "" && Canonical(call.arguments) == Ok(call.canonical)
    ensures Consistent(Tracked(b, call))
  {
    hide Canonical;
    RemovedKeeps(b, call.identity);
  }

  lemma BoundToKeeps(b: Book, q: Query, key: string, id: Identity)
    requires Consistent(b) && Binds(b, q, key, id) && key != "" && id in b.calls
    ensures Consistent(BoundTo(b, key, id))
  {
    hide Canonical;
  }

  lemma BindsKnownCall(b: Book, q: Query, key: string, id: Identity)
    requires Binds(b, q, key, id)
    ensures id in b.calls && Fits(b.calls[id], q) && b.calls[id].key == ""
    ensures forall other | other in b.calls && Fits(b.calls[other], q) :: other == id
  {
    assert id in Matches(b, q);
    assert forall other | other in b.calls && Fits(b.calls[other], q) :: other in Matches(b, q);
  }

  lemma AppliedKeeps(b: Book, m: Message)
    requires Consistent(b)
    ensures Consistent(Applied(b, m))
  {
    hide Consistent, Canonical, RequestIdOf, Matches;
    match m
    case ItemStarted(_, _, _, _, _, _) =>
      if CallOf(m).Some? {
        TrackedKeeps(b, CallOf(m).value);
      }
    case ItemCompleted(thread, turn, item) => RemovedKeeps(b, Identity(thread, turn, item));
    case TurnCompleted(thread, turn) => RemovedTurnKeeps(b, thread, turn);
    case RequestResolved(thread, requestId) =>
      if RequestIdOf(requestId).Some? {
        var key := RequestKey(RequestIdOf(requestId).value);
        if key in b.bindings {
          RemovedKeeps(b, b.bindings[key]);
        }
      }
    case Requested(_, _, _, _, requestId) =>
      if id :| BindsRequest(b, m, id) {
        var key := RequestKey(RequestIdOf(requestId).value);
        BindsKnownCall(b, QueryOf(m).value, key, id);
        RequestKeysInjective(RequestIdOf(requestId).value, RequestIdOf(requestId).value);
        OneMatch(b, m, id);
        BoundToKeeps(b, QueryOf(m).value, key, id);
      }
    case SessionFinished => NothingBound();
  }

  lemma NothingBound()
    ensures Consistent(EMPTY)
  {
  }

  /** There is at most one call a request can be bound to. */
  lemma OneMatch(b: Book, m: Message, id: Identity)
    requires BindsRequest(b, m, id)
    ensures Applied(b, m) == BoundTo(b, RequestKey(RequestIdOf(m.requestId).value), id)
  {
    hide Canonical, RequestIdOf, Matches;
    var key := RequestKey(RequestIdOf(m.requestId).value);
    forall other | BindsRequest(b, m, other) ensures other == id {
      BindsKnownCall(b, QueryOf(m).value, key, id);
      BindsKnownCall(b, QueryOf(m).value, key, other);
    }
  }

  // Main results

  /** After every history, bound calls and request keys name each other one to one. */
  lemma {:induction false} BijectionAlways(history: seq<Message>)
    ensures Consistent(After(history))
    ensures Bijection(After(history))
  {
    hide Applied;
    if history != [] {
      BijectionAlways(history[..|history| - 1]);
      AppliedKeeps(After(history[..|history| - 1]), history[|history| - 1]);
    }
  }

  /** The request asks about this call: its turn, its server, and the same JSON arguments. */
  ghost predicate AsksAbout(m: Message, call: ToolCall) {
    && m.Requested? && OfTurn(call.identity, m.thread, m.turn) && call.server == m.server
    && ReadText(call.arguments).Some? && ReadText(m.toolParams).Some?
    && Same(ReadText(call.arguments).value, ReadText(m.toolParams).value)
  }

  lemma FitsExactlyWhenAsked(b: Book, m: Message, id: Identity)
    requires Consistent(b) && m.Requested? && QueryOf(m).Some? && id in b.calls
    ensures Fits(b.calls[id], QueryOf(m).value) <==> AsksAbout(m, b.calls[id])
  {
    hide RequestIdOf, Same, DecodeObject, Canonical;
    CanonicalForm(b.calls[id].arguments, m.toolParams);
    CanonicalIsText(b.calls[id].arguments);
    CanonicalIsText(m.toolParams);
  }

  lemma CanonicalIsText(raw: string)
    requires Canonical(raw).Ok?
    ensures ReadText(raw).Some?
  {
    AcceptedExactlyWhenUnique(raw);
  }

  /**
    A well-formed request is bound to a call exactly when it asks about that call
    and no other running one, the call is unbound and the request id is not in use.
   */
  lemma BoundExactlyWhenUnambiguous(history: seq<Message>, m: Message, id: Identity)
    requires m.Requested? && QueryOf(m).Some?
    ensures var b := After(history);
            BindsRequest(b, m, id) <==>
              && RequestKey(RequestIdOf(m.requestId).value) !in b.bindings
              && id in b.calls && b.calls[id].key == "" && AsksAbout(m, b.calls[id])
              && forall other | other in b.calls && AsksAbout(m, b.calls[other]) :: other == id
  {
    hide Same, Canonical, RequestIdOf, AsksAbout, Fits, After, RequestKey;
    BijectionAlways(history);
    var b := After(history);
    var q := QueryOf(m).value;
    forall other | other in b.calls ensures Fits(b.calls[other], q) <==> AsksAbout(m, b.calls[other]) {
      FitsExactlyWhenAsked(b, m, other);
    }
    if BindsRequest(b, m, id) {
      BindsKnownCall(b, q, RequestKey(RequestIdOf(m.requestId).value), id);
    } else if && id in b.calls && AsksAbout(m, b.calls[id])
              && (forall other | other in b.calls && AsksAbout(m, b.calls[other]) :: other == id) {
      assert Matches(b, q) == {id};
    }
  }

  /** The key under which the book keeps a request with this raw id, if it has one. */
  function KeyOf(requestId: string): Option<string> {
    match RequestIdOf(requestId)
    case None => None
    case Some(Name(text)) => Some("s:" + text)
    case Some(Number(n)) => Some("i:" + FormatInt(n))
  }

  /** A message without one of its names is ignored. */
  predicate Named(m: Message) {
    match m
    case ItemStarted(thread, turn, item, server, tool, _) =>
      thread != "" && turn != "" && item != "" && server != "" && tool != ""
    case ItemCompleted(thread, turn, item) => thread != "" && turn != "" && item != ""
    case TurnCompleted(thread, turn) => thread != "" && turn != ""
    case RequestResolved(thread, _) => thread != ""
    case Requested(thread, turn, server, _, _) => thread != "" && turn != "" && server != ""
    case SessionFinished => true
  }

  /** So is one whose arguments are no object of distinct keys, and a request without an id. */
  lemma WellFormedMessages(m: Message)
    ensures m.ItemStarted? ==> (CallOf(m).Some? <==> Named(m) && Canonical(m.arguments).Ok?)
    ensures m.Requested? ==>
              (QueryOf(m).Some? <==> Named(m) && KeyOf(m.requestId).Some? && Canonical(m.toolParams).Ok?)
  {
    hide Canonical, RequestIdOf;
  }

  /** The message takes this call out of the book. */
  predicate Removes(m: Message, call: ToolCall) {
    Named(m) &&
    match m
    case ItemStarted(thread, turn, item, server, tool, arguments) =>
      && call.identity == Identity(thread, turn, item) && Canonical(arguments).Ok?
      && !(call.server == server && call.tool == tool && Canonical(call.arguments) == Canonical(arguments))
    case ItemCompleted(thread, turn, item) => call.identity == Identity(thread, turn, item)
    case TurnCompleted(thread, turn) => call.identity.thread == thread && call.identity.turn == turn
    case RequestResolved(thread, requestId) =>
      call.identity.thread == thread && call.key != "" && KeyOf(requestId) == Some(call.key)
    case Requested(_, _, _, _, _) => false
    case SessionFinished => true
  }

  /**
    Which calls are in the book after one more message: those that were and are
    not removed, and the one it starts. A call announced again differently is
    removed; a completed call, the calls of a completed turn and the call of a
    resolved request of the same thread are, and the end of the session removes all.
   */
  lemma CallsAfter(history: seq<Message>, m: Message, id: Identity)
    ensures var before := After(history).calls;
            id in After(history + [m]).calls <==>
              if id in before then !Removes(m, before[id])
              else
                && m.ItemStarted? && Named(m) && Canonical(m.arguments).Ok?
                && id == Identity(m.thread, m.turn, m.item)
  {
    hide Canonical, RequestIdOf, Matches;
    assert (history + [m])[..|history|] == history;
    BijectionAlways(history);
    WellFormedMessages(m);
    var b := After(history);
    if m.Requested? {
      if other :| BindsRequest(b, m, other) {
        OneMatch(b, m, other);
        BindsKnownCall(b, QueryOf(m).value, RequestKey(RequestIdOf(m.requestId).value), other);
      }
    } else if m.RequestResolved? && KeyOf(m.requestId).Some? && KeyOf(m.requestId).value in b.bindings {
      assert b.bindings[KeyOf(m.requestId).value] in b.calls;
    }
  }

  /** A call stays what it was announced as; only a request that is bound to it changes its key. */
  lemma CallsStay(history: seq<Message>, m: Message, id: Identity)
    requires id in After(history + [m]).calls
    ensures var before, call := After(history).calls, After(history + [m]).calls[id];
            if id in before then
              && call == before[id].(key := call.key)
              && (call.key != before[id].key ==>
                    m.Requested? && before[id].key == "" && KeyOf(m.requestId) == Some(call.key)
                    && AsksAbout(m, before[id]))
            else
              && m.ItemStarted? && Canonical(m.arguments).Ok?
              && call == ToolCall(Identity(m.thread, m.turn, m.item), m.server, m.tool, m.arguments,
                                  Canonical(m.arguments).value, "")
  {
    hide Canonical, RequestIdOf, Matches, AsksAbout, Consistent;
    assert (history + [m])[..|history|] == history;
    BijectionAlways(history);
    var b := After(history);
    if m.Requested? {
      hide Applied;
      RequestKeeps(b, m, id);
    } else {
      hide BindsRequest, Bijection;
    }
  }

  /** A request changes the key of the one call it is bound to, if there is one. */
  lemma RequestKeeps(b: Book, m: Message, id: Identity)
    requires Consistent(b) && m.Requested? && id in Applied(b, m).calls
    ensures id in b.calls
    ensures var call := Applied(b, m).calls[id];
            && call == b.calls[id].(key := call.key)
            && (call.key != b.calls[id].key ==>
                  b.calls[id].key == "" && KeyOf(m.requestId) == Some(call.key) && AsksAbout(m, b.calls[id]))
  {
    hide Canonical, RequestIdOf, Matches, AsksAbout;
    if other :| BindsRequest(b, m, other) {
      OneMatch(b, m, other);
      BindsKnownCall(b, QueryOf(m).value, RequestKey(RequestIdOf(m.requestId).value), other);
      FitsExactlyWhenAsked(b, m, other);
      hide BindsRequest, Consistent;
    }
  }

  /** A bound call keeps its request for as long as it is in the book. */
  lemma BindingsAreKept(history: seq<Message>, m: Message, id: Identity)
    requires id in After(history).calls && After(history).calls[id].key != ""
    ensures id in After(history + [m]).calls ==> After(history + [m]).calls[id] == After(history).calls[id]
  {
    hide Canonical, RequestIdOf, Matches;
    var b := After(history);
    assert (history + [m])[..|history|] == history;
    BijectionAlways(history);
    if m.Requested? {
      if other :| BindsRequest(b, m, other) {
        OneMatch(b, m, other);
        BindsKnownCall(b, QueryOf(m).value, RequestKey(RequestIdOf(m.requestId).value), other);
      }
    }
  }

  /** Two live calls never share a request, so an answer to it concerns one call. */
  lemma RequestsAreNotShared(history: seq<Message>, a: Identity, b: Identity)
    requires a in After(history).calls && b in After(history).calls
    requires After(history).calls[a].key == After(history).calls[b].key != ""
    ensures a == b
  {
    hide After, Canonical;
    BijectionAlways(history);
  }

  // The binder itself follows the histories

  /** recordMCPLifecycle, prepareMCPElicitation and the end of the session; bound is the call a request got. */
  method Handle(state: ElicitationState, m: Message) returns (bound: Option<ToolCall>)
    requires Consistent(state.Value())
    modifies state
    ensures state.Value() == Applied(old(state.Value()), m) && Consistent(state.Value())
    ensures bound.Some? ==> BindsRequest(old(state.Value()), m, bound.value.identity)
    ensures bound.None? && m.Requested? ==> forall id :: !BindsRequest(old(state.Value()), m, id)
  {
    hide Canonical, RequestIdOf, Matches;
    bound := None;
    ghost var before := state.Value();
    AppliedKeeps(before, m);
    match m
    case ItemStarted(_, _, _, _, _, _) =>
      var call := CallOf(m);
      if call.Some? {
        state.Track(call.value);
      }
    case ItemCompleted(thread, turn, item) =>
      if thread != "" && turn != "" && item != "" {
        state.RemoveCall(Identity(thread, turn, item));
      }
    case TurnCompleted(thread, turn) =>
      if thread != "" && turn != "" {
        state.RemoveTurn(thread, turn);
      }
    case RequestResolved(thread, requestId) =>
      var id := RequestIdOf(requestId);
      if thread != "" && id.Some? {
        state.RemoveRequest(RequestKey(id.value), thread);
      }
    case Requested(_, _, _, _, requestId) =>
      bound := Ask(state, m);
    case SessionFinished => state.Clear();
  }

  method Ask(state: ElicitationState, m: Message) returns (bound: Option<ToolCall>)
    requires Consistent(state.Value()) && m.Requested?
    modifies state
    ensures state.Value() == Applied(old(state.Value()), m)
    ensures bound.Some? ==> BindsRequest(old(state.Value()), m, bound.value.identity)
    ensures bound.None? ==> forall id :: !BindsRequest(old(state.Value()), m, id)
  {
    hide Canonical, RequestIdOf, Matches, BoundTo;
    bound := None;
    ghost var before := state.Value();
    var q := QueryOf(m);
    if q.Some? {
      var id := RequestIdOf(m.requestId).value;
      RequestKeysInjective(id, id);
      bound := state.UniqueUnboundCall(q.value, RequestKey(id));
      if bound.Some? {
        OneMatch(before, m, bound.value.identity);
      }
    }
  }

  /** A session of messages leaves the binder where the history says. */
  method HandleAll(state: ElicitationState, messages: seq<Message>)
    requires state.Value() == EMPTY
    modifies state
    ensures state.Value() == After(messages)
  {
    hide Applied;
    NothingBound();
    for k := 0 to |messages|
      invariant state.Value() == After(messages[..k]) && Consistent(state.Value())
    {
      assert messages[..k + 1][..k] == messages[..k];
      var _ := Handle(state, messages[k]);
    }
    assert messages[..|messages|] == messages;
  }
}
