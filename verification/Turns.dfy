/**
  The turns of a Codex session as its notifications build them up, and the
  unbounded queue that carries events to their one consumer.
 */
module Turns {
  import opened Wrappers
  import opened Text

  datatype Notification =
    | Opened(thread: string, turn: string)      // a turn/start call came back with this id
    | TurnStarted(thread: string, turn: string)
    | AgentMessage(thread: string, turn: string, text: string, phase: Option<string>)
    | TurnCompleted(thread: string, turn: string, status: string, error: string)

  /** done counts how often the turn's channel was closed; closing twice would panic. */
  datatype Turn = Turn(
    thread: string,
    messages: seq<string>,
    finals: seq<string>,
    legacy: seq<string>,
    text: string,
    status: string,
    error: string,
    completed: bool,
    done: nat)

  // One notification

  function Fresh(thread: string): Turn {
    Turn(thread, [], [], [], "", "", "", false, 0)
  }

  /** getTurnState: a known turn only gains a missing thread. */
  function Ensured(turns: map<string, Turn>, turn: string, thread: string): Turn {
    if turn !in turns then Fresh(thread)
    else if turns[turn].thread == "" then turns[turn].(thread := thread)
    else turns[turn]
  }

  function TextOf(finals: seq<string>, legacy: seq<string>): string {
    if finals != [] then finals[|finals| - 1] else Join(legacy)
  }

  function WithMessage(t: Turn, text: string, phase: Option<string>): Turn {
    var finals := if phase == Some("final_answer") then t.finals + [text] else t.finals;
    var legacy := if phase == None then t.legacy + [text] else t.legacy;
    t.(messages := t.messages + [text], finals := finals, legacy := legacy, text := TextOf(finals, legacy))
  }

  function WithCompletion(t: Turn, thread: string, status: string, error: string): Turn {
    t.(thread := if t.thread == "" then thread else t.thread, status := status, error := error,
       completed := true, done := if t.completed then t.done else t.done + 1)
  }

  function Applied(turns: map<string, Turn>, n: Notification): map<string, Turn> {
    match n
    case Opened(thread, turn) => turns[turn := Ensured(turns, turn, thread)]
    case TurnStarted(thread, turn) =>
      if thread == "" || turn == "" then turns else turns[turn := Ensured(turns, turn, thread)]
    case AgentMessage(thread, turn, text, phase) =>
      if turn == "" then turns else turns[turn := WithMessage(Ensured(turns, turn, thread), text, phase)]
    case TurnCompleted(thread, turn, status, error) =>
      if turn == "" then turns else turns[turn := WithCompletion(Ensured(turns, turn, thread), thread, status, error)]
  }

  function After(history: seq<Notification>): map<string, Turn> {
    if history == [] then map[] else Applied(After(history[..|history| - 1]), history[|history| - 1])
  }

  // The client's own objects

  class TurnState {
    const id: string
    var turn: Turn

    constructor (id: string, thread: string)
      ensures turn == Fresh(thread) && this.id == id
    {
      this.id, turn := id, Fresh(thread);
    }

    method AddMessage(text: string, phase: Option<string>)
      modifies this
      ensures turn == WithMessage(old(turn), text, phase)
    {
      turn := turn.(messages := turn.messages + [text]);
      if phase.None? {
        turn := turn.(legacy := turn.legacy + [text]);
      } else if phase.value == "final_answer" {
        turn := turn.(finals := turn.finals + [text]);
      }
      turn := turn.(text := if |turn.finals| != 0 then turn.finals[|turn.finals| - 1] else Join(turn.legacy));
    }

    method Complete(thread: string, status: string, error: string)
      modifies this
      ensures turn == WithCompletion(old(turn), thread, status, error)
    {
      if turn.thread == "" {
        turn := turn.(thread := thread);
      }
      turn := turn.(status := status, error := error);
      if !turn.completed {
        turn := turn.(completed := true, done := turn.done + 1);
      }
    }
  }

  /** View is the table's value: every turn in it has its own object, which knows its id. */
  class TurnTable {
    var turns: map<string, TurnState>
    ghost var view: map<string, Turn>
    ghost var repr: set<TurnState>

    ghost predicate Valid()
      reads this, repr
    {
      && turns.Keys == view.Keys
      && (forall k | k in turns :: turns[k] in repr && turns[k].id == k && turns[k].turn == view[k])
    }

    /** Objects handed out stay the objects of their turns, so a waiter sees every later change. */
    ghost predicate Extends(before: map<string, TurnState>)
      reads this
    {
      forall k | k in before :: k in turns && turns[k] == before[k]
    }

    constructor ()
      ensures Valid() && view == map[] && repr == {}
    {
      turns, view, repr := map[], map[], {};
    }

    method GetTurnState(turn: string, thread: string) returns (state: TurnState)
      requires Valid()
      modifies this, repr
      ensures Valid() && turn in turns && turns[turn] == state
      ensures view == old(view)[turn := Ensured(old(view), turn, thread)]
      ensures Extends(old(turns))
      ensures fresh(repr - old(repr))
    {
      view := view[turn := Ensured(view, turn, thread)];
      if turn in turns {
        state := turns[turn];
        if state.turn.thread == "" {
          state.turn := state.turn.(thread := thread);
        }
      } else {
        state := new TurnState(turn, thread);
        turns, repr := turns[turn := state], repr + {state};
      }
    }

    /** Takes the changed object of one turn into the view. */
    ghost method Refresh(turn: string, before: map<string, Turn>)
      requires turn in turns && turns.Keys == view.Keys && before.Keys + {turn} == view.Keys
      requires forall k | k in turns :: turns[k] in repr && turns[k].id == k && (k != turn ==> turns[k].turn == view[k])
      requires forall k | k in before && k != turn :: view[k] == before[k]
      modifies this`view
      ensures Valid() && view == before[turn := turns[turn].turn]
    {
      view := before[turn := turns[turn].turn];
    }

    method AddMessage(thread: string, turn: string, text: string, phase: Option<string>)
      requires Valid()
      modifies this, repr
      ensures Valid()
      ensures view == old(view)[turn := WithMessage(Ensured(old(view), turn, thread), text, phase)]
      ensures Extends(old(turns))
      ensures fresh(repr - old(repr))
    {
      hide WithMessage, Ensured;
      var state := GetTurnState(turn, thread);
      state.AddMessage(text, phase);
      assert forall k | k in turns && k != turn :: turns[k] != state;
      Refresh(turn, old(view));
    }

    method Complete(thread: string, turn: string, status: string, error: string)
      requires Valid()
      modifies this, repr
      ensures Valid()
      ensures view == old(view)[turn := WithCompletion(Ensured(old(view), turn, thread), thread, status, error)]
      ensures Extends(old(turns))
      ensures fresh(repr - old(repr))
    {
      hide WithCompletion, Ensured;
      var state := GetTurnState(turn, thread);
      state.Complete(thread, status, error);
      assert forall k | k in turns && k != turn :: turns[k] != state;
      Refresh(turn, old(view));
    }

    /** recordTurnEvent. */
    method Record(n: Notification)
      requires Valid()
      modifies this, repr
      ensures Valid() && view == Applied(old(view), n)
      ensures Extends(old(turns))
      ensures fresh(repr - old(repr))
    {
      hide Ensured, WithMessage, WithCompletion;
      match n
      case Opened(thread, turn) =>
        var _ := GetTurnState(turn, thread);
      case TurnStarted(thread, turn) =>
        if thread != "" && turn != "" {
          var _ := GetTurnState(turn, thread);
        }
      case AgentMessage(thread, turn, text, phase) =>
        if turn != "" {
          AddMessage(thread, turn, text, phase);
        }
      case TurnCompleted(thread, turn, status, error) =>
        if turn != "" {
          Complete(thread, turn, status, error);
        }
    }
  }

  // What a turn is, by its history

  predicate Mentions(n: Notification, turn: string) {
    && n.turn == turn
    && match n
       case Opened(_, _) => true
       case TurnStarted(thread, _) => thread != "" && turn != ""
       case _ => turn != ""
  }

  /** The texts of the turn's agent messages with a matching phase, in order. */
  function Texts(history: seq<Notification>, turn: string, phase: Option<string> -> bool): seq<string> {
    if history == [] then []
    else
      var n := history[|history| - 1];
      Texts(history[..|history| - 1], turn, phase)
      + if Adds(n, turn) && phase(n.phase) then [n.text] else []
  }

  const ANY := (phase: Option<string>) => true
  const FINAL := (phase: Option<string>) => phase == Some("final_answer")
  const UNPHASED := (phase: Option<string>) => phase == None

  predicate Completed(history: seq<Notification>, turn: string) {
    exists i | 0 <= i < |history| :: history[i].TurnCompleted? && Mentions(history[i], turn)
  }

  predicate Known(history: seq<Notification>, turn: string) {
    exists i | 0 <= i < |history| :: Mentions(history[i], turn)
  }

  /** The first thread named together with the turn. */
  function FirstThread(history: seq<Notification>, turn: string): string {
    if history == [] then ""
    else
      var before := FirstThread(history[..|history| - 1], turn);
      var n := history[|history| - 1];
      if before == "" && Mentions(n, turn) then n.thread else before
  }

  lemma ExistsInit(history: seq<Notification>, turn: string)
    requires history != []
    ensures var init, n := history[..|history| - 1], history[|history| - 1];
            && (Known(history, turn) <==> Known(init, turn) || Mentions(n, turn))
            && (Completed(history, turn) <==> Completed(init, turn) || (n.TurnCompleted? && Mentions(n, turn)))
  {
    var init := history[..|history| - 1];
    assert forall i | 0 <= i < |init| :: init[i] == history[i];
  }

  lemma MentionedTurns(turns: map<string, Turn>, n: Notification, turn: string)
    ensures turn in Applied(turns, n) <==> turn in turns || Mentions(n, turn)
  {
    hide Ensured, WithMessage, WithCompletion;
  }

  lemma {:induction false} KnownTurns(history: seq<Notification>, turn: string)
    ensures turn in After(history) <==> Known(history, turn)
  {
    hide Applied, Mentions, Known;
    if history == [] {
      assert !Known([], turn) by { NothingKnown(turn); }
    } else {
      var init, n := history[..|history| - 1], history[|history| - 1];
      KnownTurns(init, turn);
      ExistsInit(history, turn);
      MentionedTurns(After(init), n, turn);
    }
  }

  lemma NothingKnown(turn: string)
    ensures !Known([], turn)
  {
  }

  lemma {:induction false} NoTexts(history: seq<Notification>, turn: string)
    requires turn !in After(history)
    ensures forall phase :: Texts(history, turn, phase) == []
    ensures FirstThread(history, turn) == "" && !Completed(history, turn)
  {
    hide Applied, Mentions;
    if history != [] {
      MentionedTurns(After(history[..|history| - 1]), history[|history| - 1], turn);
      NoTexts(history[..|history| - 1], turn);
      ExistsInit(history, turn);
    }
  }

  predicate Adds(n: Notification, turn: string) {
    n.AgentMessage? && Mentions(n, turn)
  }

  /** What one notification does to its turn, known before as b. */
  lemma TextStep(turns: map<string, Turn>, n: Notification, turn: string)
    requires turn in Applied(turns, n)
    ensures var b := if turn in turns then turns[turn] else Fresh("");
            var t := Applied(turns, n)[turn];
            if Adds(n, turn) then
              && t.messages == b.messages + [n.text]
              && t.finals == (if n.phase == Some("final_answer") then b.finals + [n.text] else b.finals)
              && t.legacy == (if n.phase == None then b.legacy + [n.text] else b.legacy)
              && t.text == TextOf(t.finals, t.legacy)
            else t.messages == b.messages && t.finals == b.finals && t.legacy == b.legacy && t.text == b.text
  {
    hide TextOf, Join;
  }

  /** The messages of a turn are exactly those of its history, and its text is made of them. */
  predicate Agrees(t: Turn, messages: seq<string>, finals: seq<string>, legacy: seq<string>) {
    t.messages == messages && t.finals == finals && t.legacy == legacy && t.text == TextOf(finals, legacy)
  }

  lemma FreshAgrees(thread: string)
    ensures Agrees(Fresh(thread), [], [], [])
  {
  }

  /** All agent messages of the turn, in order, and the text a caller gets from them. */
  lemma {:induction false} TurnMessages(history: seq<Notification>, turn: string)
    requires turn in After(history)
    ensures Agrees(After(history)[turn], Texts(history, turn, ANY), Texts(history, turn, FINAL),
        Texts(history, turn, UNPHASED))
  {
    hide Applied, Adds, Mentions, TextOf;
    var init, n := history[..|history| - 1], history[|history| - 1];
    TextStep(After(init), n, turn);
    TextsStep(history, turn);
    if turn in After(init) {
      TurnMessages(init, turn);
    } else {
      NoTexts(init, turn);
      FreshAgrees("");
    }
  }

  /**
    So a caller reads the last final answer of the history, or, where there is
    none, the messages without a phase, one per line; commentary never counts.
   */
  lemma TurnText(history: seq<Notification>, turn: string)
    requires turn in After(history)
    ensures var finals, unphased := Texts(history, turn, FINAL), Texts(history, turn, UNPHASED);
            && (finals != [] ==> After(history)[turn].text == finals[|finals| - 1])
            && (finals == [] ==> After(history)[turn].text == Join(unphased))
  {
    hide After, Texts;
    TurnMessages(history, turn);
  }

  lemma TextsStep(history: seq<Notification>, turn: string)
    requires history != []
    ensures var init, n := history[..|history| - 1], history[|history| - 1];
            forall phase ::
              Texts(history, turn, phase) ==
              if Adds(n, turn) && phase(n.phase) then Texts(init, turn, phase) + [n.text] else Texts(init, turn, phase)
  {
  }

  /** The done channel is closed once, and exactly when the turn has completed. */
  lemma {:induction false} DoneExactlyWhenCompleted(history: seq<Notification>, turn: string)
    requires turn in After(history)
    ensures var t := After(history)[turn];
            && t.done == (if t.completed then 1 else 0)
            && (t.completed <==> Completed(history, turn))
            && t.thread == FirstThread(history, turn)
  {
    var init := history[..|history| - 1];
    ExistsInit(history, turn);
    if turn in After(init) {
      DoneExactlyWhenCompleted(init, turn);
    } else {
      NoTexts(init, turn);
    }
  }

  /** Status and error are those of the last completion. */
  lemma {:induction false} LastCompletion(history: seq<Notification>, turn: string, i: nat)
    requires i < |history| && history[i].TurnCompleted? && Mentions(history[i], turn)
    requires forall j | i < j < |history| :: !(history[j].TurnCompleted? && Mentions(history[j], turn))
    ensures turn in After(history)
    ensures After(history)[turn].status == history[i].status && After(history)[turn].error == history[i].error
    decreases |history|
  {
    if i < |history| - 1 {
      LastCompletion(history[..|history| - 1], turn, i);
    }
  }

  // The event queue

  const INPUT_CAPACITY := 32

  /** What the select statements and the other goroutines do next. */
  datatype Choice<E> =
    | Offer(event: E)     // queueEvent sends, if the input channel has room
    | Close               // finish closes done
    | TakeInput
    | Emit
    | SeeDone

  datatype Queue<E> = Queue(accepted: seq<E>, emitted: seq<E>, queue: seq<E>, input: seq<E>, done: bool, ending: bool) {
    /** The loop has returned and closed its output. */
    predicate Closed() {
      ending && queue == []
    }
  }

  function Empty<E>(): Queue<E> {
    Queue([], [], [], [], false, false)
  }

  /** One choice; those that are not possible change nothing. */
  function Chosen<E>(q: Queue<E>, choice: Choice<E>): Queue<E> {
    match choice
    case Offer(event) =>
      if |q.input| < INPUT_CAPACITY then q.(accepted := q.accepted + [event], input := q.input + [event]) else q
    case Close => q.(done := true)
    case TakeInput =>
      if !q.Closed() && q.input != [] then q.(queue := q.queue + [q.input[0]], input := q.input[1..]) else q
    case Emit => if q.queue != [] then q.(emitted := q.emitted + [q.queue[0]], queue := q.queue[1..]) else q
    case SeeDone => if !q.ending && q.done then q.(ending := true) else q
  }

  function Run<E>(q: Queue<E>, choices: seq<Choice<E>>): Queue<E> {
    if choices == [] then q else Chosen(Run(q, choices[..|choices| - 1]), choices[|choices| - 1])
  }

  /** eventLoop, up to its return or to the end of the choices. */
  method EventLoop<E>(choices: seq<Choice<E>>)
    returns (accepted: seq<E>, emitted: seq<E>, closed: bool, taken: nat)
    ensures taken <= |choices| && (closed || taken == |choices|)
    ensures closed <==> Run(Empty(), choices[..taken]).Closed()
    ensures emitted == Run(Empty(), choices[..taken]).emitted && accepted == Run(Empty(), choices[..taken]).accepted
  {
    var queue: seq<E>, input: seq<E> := [], [];
    var done, ending := false, false;
    accepted, emitted, taken := [], [], 0;
    while (!ending || |queue| != 0) && taken < |choices|
      invariant taken <= |choices|
      invariant Run(Empty(), choices[..taken]) == Queue(accepted, emitted, queue, input, done, ending)
    {
      assert choices[..taken + 1][..taken] == choices[..taken];
      match choices[taken] {
        case Offer(event) =>
          if |input| < INPUT_CAPACITY {
            accepted, input := accepted + [event], input + [event];
          }
        case Close => done := true;
        case TakeInput =>
          if |input| != 0 {
            queue, input := queue + [input[0]], input[1..];
          }
        case Emit =>
          if |queue| != 0 {
            emitted, queue := emitted + [queue[0]], queue[1..];
          }
        case SeeDone =>
          if !ending && done {
            ending := true;
          }
      }
      taken := taken + 1;
    }
    closed := ending && |queue| == 0;
  }

  /**
    Order and completeness: what was accepted has been emitted, or is queued, or
    is still in the input channel, in this order. So the emitted events are a
    prefix of the accepted ones, and a loop that returned left nothing it took.
   */
  lemma {:induction false} EmittedIsPrefix<E>(choices: seq<Choice<E>>)
    ensures var q := Run(Empty(), choices);
            && InOrder(q) && q.emitted <= q.accepted
            && (q.Closed() ==> q.accepted == q.emitted + q.input)
  {
    hide Chosen;
    if choices != [] {
      EmittedIsPrefix(choices[..|choices| - 1]);
      ChosenInOrder(Run(Empty(), choices[..|choices| - 1]), choices[|choices| - 1]);
    }
  }

  predicate InOrder<E(==)>(q: Queue<E>) {
    q.accepted == q.emitted + q.queue + q.input && |q.input| <= INPUT_CAPACITY
  }

  lemma ChosenInOrder<E>(q: Queue<E>, choice: Choice<E>)
    requires InOrder(q)
    ensures InOrder(Chosen(q, choice))
  {
    match choice
    case TakeInput =>
      if q.input != [] {
        MoveHead(q.queue, q.input);
        Regroup(q.emitted, q.queue, q.input, Chosen(q, choice).queue, Chosen(q, choice).input);
      }
    case Emit =>
      if q.queue != [] {
        MoveHead(q.emitted, q.queue);
      }
    case Offer(event) =>
      assert q.emitted + q.queue + (q.input + [event]) == q.emitted + q.queue + q.input + [event];
    case _ =>
  }

  lemma MoveHead<E>(a: seq<E>, b: seq<E>)
    requires b != []
    ensures a + b == (a + [b[0]]) + b[1..]
  {
  }

  lemma Regroup<E>(a: seq<E>, b: seq<E>, c: seq<E>, d: seq<E>, e: seq<E>)
    requires b + c == d + e
    ensures a + b + c == a + d + e
  {
    assert a + b + c == a + (b + c);
    assert a + d + e == a + (d + e);
  }

  /** An event is accepted exactly while fewer than 32 wait in the channel. */
  lemma InputHoldsThirtyTwo<E>(q: Queue<E>, event: E)
    ensures var next := Chosen(q, Offer(event));
            next == if |q.input| < 32 then q.(accepted := q.accepted + [event], input := q.input + [event]) else q
  {
  }

  /** The loop returns only after the process has ended and it has seen so. */
  lemma {:induction false} ReturnsOnlyAtTheEnd<E>(choices: seq<Choice<E>>)
    ensures var q := Run(Empty(), choices);
            (q.done ==> Close in choices) && (q.ending ==> Close in choices && SeeDone in choices)
  {
    if choices != [] {
      var init := choices[..|choices| - 1];
      ReturnsOnlyAtTheEnd(init);
      assert forall c <- init :: c in choices;
    }
  }

  function Emits<E>(n: nat): seq<Choice<E>> {
    seq(n, i requires 0 <= i < n => Emit)
  }

  /** A consumer that keeps reading gets the whole queue, and then the loop can return. */
  lemma {:induction false} QueueDrains<E>(q: Queue<E>, n: nat)
    requires n <= |q.queue|
    ensures Run(q, Emits(n)) == q.(emitted := q.emitted + q.queue[..n], queue := q.queue[n..])
    ensures q.ending && n == |q.queue| ==> Run(q, Emits(n)).Closed()
  {
    if n > 0 {
      QueueDrains(q, n - 1);
      assert Emits<E>(n)[..n - 1] == Emits(n - 1);
      assert Emits<E>(n)[n - 1] == Emit;
      assert q.queue[..n] == q.queue[..n - 1] + [q.queue[n - 1]];
    }
  }

  /** Every event that is sent, taken and read one by one is delivered. */
  function Deliveries<E>(events: seq<E>): seq<Choice<E>> {
    if events == [] then []
    else Deliveries(events[..|events| - 1]) + [Offer(events[|events| - 1])] + [TakeInput] + [Emit]
  }

  lemma {:induction false} DeliveriesArrive<E>(events: seq<E>)
    ensures Run(Empty(), Deliveries(events)) == Queue(events, events, [], [], false, false)
  {
    if events != [] {
      var init, e := events[..|events| - 1], events[|events| - 1];
      DeliveriesArrive(init);
      var first := Deliveries(init) + [Offer(e)];
      var second := first + [TakeInput];
      assert (second + [Emit])[..|second|] == second && second[..|first|] == first;
      assert first[..|Deliveries(init)|] == Deliveries(init);
      assert Run(Empty(), first) == Queue(init + [e], init, [], [e], false, false);
      assert Run(Empty(), second) == Queue(init + [e], init, [e], [], false, false);
      assert init + [e] == events;
    }
  }
}
