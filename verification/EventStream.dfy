/**
  The resumable run-event stream: the server's endless poll-and-write handler,
  the client's incremental frame reader, and a session of connections cut off
  anywhere and resumed from the last id.
 */
module EventStream {
  import opened Wrappers
  import opened Text

  /** A stored event and its one-line JSON encoding. */
  datatype Event = Event(sequence: nat, data: string) {
    predicate Encoded() {
      && sequence <= MAX_INT64
      && data != "" && forall i | 0 <= i < |data| :: data[i] != '\n' && data[i] != '\r'
    }
  }

  predicate Ascending(log: seq<Event>) {
    forall i, j | 0 <= i < j < |log| :: log[i].sequence < log[j].sequence
  }

  predicate AllEncoded(log: seq<Event>) {
    forall i | 0 <= i < |log| :: log[i].Encoded()
  }

  // The store's query

  /** WHERE sequence > after ORDER BY sequence, over a log kept in sequence order. */
  function After(log: seq<Event>, after: int): seq<Event> {
    if log == [] then []
    else if log[0].sequence > after then [log[0]] + After(log[1..], after)
    else After(log[1..], after)
  }

  function Take<T>(s: seq<T>, n: nat): seq<T> {
    if |s| <= n then s else s[..n]
  }

  const PAGE: nat := 200

  function EventsAfter(log: seq<Event>, after: int): seq<Event> {
    Take(After(log, after), PAGE)
  }

  lemma {:induction false} AfterAppend(p: seq<Event>, q: seq<Event>, after: int)
    ensures After(p + q, after) == After(p, after) + After(q, after)
  {
    if p == [] {
      assert p + q == q;
    } else {
      assert (p + q)[1..] == p[1..] + q;
      AfterAppend(p[1..], q, after);
    }
  }

  lemma {:induction false} AfterNothing(log: seq<Event>, after: int)
    requires forall i | 0 <= i < |log| :: log[i].sequence <= after
    ensures After(log, after) == []
  {
    if log != [] {
      AfterNothing(log[1..], after);
    }
  }

  lemma {:induction false} AfterEverything(log: seq<Event>, after: int)
    requires forall i | 0 <= i < |log| :: log[i].sequence > after
    ensures After(log, after) == log
  {
    if log != [] {
      AfterEverything(log[1..], after);
      assert log == [log[0]] + log[1..];
    }
  }

  /** In a log in sequence order, what comes after a cursor is a suffix. */
  lemma {:induction false} AfterIsSuffix(log: seq<Event>, after: int) returns (k: nat)
    requires Ascending(log)
    ensures k <= |log| && After(log, after) == log[k..]
    ensures forall i | 0 <= i < k :: log[i].sequence <= after
  {
    if log == [] {
      k := 0;
    } else if log[0].sequence > after {
      AfterEverything(log, after);
      k := 0;
    } else {
      k := AfterIsSuffix(log[1..], after);
      k := k + 1;
    }
  }

  /** Moving the cursor to the last of the first n answers drops exactly those n. */
  lemma AfterResumes(log: seq<Event>, after: int, n: nat)
    requires Ascending(log) && 0 < n <= |After(log, after)|
    ensures After(log, After(log, after)[n - 1].sequence) == After(log, after)[n..]
  {
    hide After;
    var k := AfterIsSuffix(log, after);
    var next := log[k + n - 1].sequence;
    AfterCut(log, k + n, next);
    assert log[k..][n - 1] == log[k + n - 1] && log[k..][n..] == log[k + n..];
  }

  /** A cursor that falls between two parts of the log leaves exactly the second. */
  lemma AfterCut(log: seq<Event>, cut: nat, after: int)
    requires cut <= |log|
    requires forall i | 0 <= i < cut :: log[i].sequence <= after
    requires forall i | cut <= i < |log| :: log[i].sequence > after
    ensures After(log, after) == log[cut..]
  {
    hide After;
    AfterAppend(log[..cut], log[cut..], after);
    assert log == log[..cut] + log[cut..];
    AfterNothing(log[..cut], after);
    AfterEverything(log[cut..], after);
  }

  // The server

  datatype Item = Frame(event: Event) | KeepAlive

  function Body(item: Item): string {
    match item
    case Frame(e) => "id: " + Decimal(e.sequence) + "\nevent: run_event\ndata: " + e.data
    case KeepAlive => ": keepalive"
  }

  function StreamText(items: seq<Item>): string {
    if items == [] then "" else Body(items[0]) + ("\n\n" + StreamText(items[1..]))
  }

  function FramesOf(events: seq<Event>): seq<Item> {
    seq(|events|, i requires 0 <= i < |events| => Frame(events[i]))
  }

  function LastSequence(events: seq<Event>, after: int): int {
    if events == [] then after else events[|events| - 1].sequence
  }

  /** What the handler writes, poll by poll: a page of events, then the tick's keepalive. */
  function ServerItems(polls: seq<seq<Event>>, after: int): seq<Item> {
    if polls == [] then []
    else
      var page := EventsAfter(polls[0], after);
      FramesOf(page) + ([KeepAlive] + ServerItems(polls[1..], LastSequence(page, after)))
  }

  lemma {:induction false} TextAppend(a: seq<Item>, b: seq<Item>)
    ensures StreamText(a + b) == StreamText(a) + StreamText(b)
  {
    if a == [] {
      assert a + b == b;
    } else {
      assert (a + b)[1..] == a[1..] + b;
      TextAppend(a[1..], b);
    }
  }

  function ServerAfter(polls: seq<seq<Event>>, after: int): int {
    if polls == [] then after else ServerAfter(polls[1..], LastSequence(EventsAfter(polls[0], after), after))
  }

  lemma AppendItem(items: seq<Item>, item: Item)
    ensures StreamText(items + [item]) == StreamText(items) + Body(item) + "\n\n"
  {
    TextAppend(items, [item]);
    assert StreamText([item]) == Body(item) + ("\n\n" + "");
    assert StreamText(items) + (Body(item) + "\n\n") == StreamText(items) + Body(item) + "\n\n";
  }

  lemma PollStep(polls: seq<seq<Event>>, k: nat, after: int, items: seq<Item>)
    requires k < |polls|
    ensures var page := EventsAfter(polls[k], after);
            && items + ServerItems(polls[k..], after) ==
               items + FramesOf(page) + [KeepAlive] + ServerItems(polls[k + 1..], LastSequence(page, after))
            && ServerAfter(polls[k..], after) == ServerAfter(polls[k + 1..], LastSequence(page, after))
  {
    assert polls[k..][1..] == polls[k + 1..];
  }

  /**
    `handleEvents` for as many polls as the request lives: `polls` is what the
    table holds at each query.
   */
  method HandleEvents(polls: seq<seq<Event>>, start: int) returns (written: string, after: int)
    ensures written == StreamText(ServerItems(polls, start))
    ensures after == ServerAfter(polls, start)
  {
    hide StreamText, Body, EventsAfter, LastSequence;
    written, after := "", start;
    ghost var items: seq<Item> := [];
    assert written == StreamText(items) by {
      NothingWritten();
    }
    assert polls[0..] == polls;
    for k := 0 to |polls|
      invariant written == StreamText(items)
      invariant items + ServerItems(polls[k..], after) == ServerItems(polls, start)
      invariant ServerAfter(polls[k..], after) == ServerAfter(polls, start)
    {
      var events := EventsAfter(polls[k], after);
      PollStep(polls, k, after, items);
      var text, cursor := WritePage(events, after, items, written);
      items := items + FramesOf(events) + [KeepAlive];
      AppendItem(items[..|items| - 1], KeepAlive);
      assert items[..|items| - 1] + [KeepAlive] == items;
      written, after := text + Body(KeepAlive) + "\n\n", cursor;
    }
    assert items + [] == items;
  }

  lemma NothingWritten()
    ensures StreamText([]) == ""
  {
  }

  /** The inner loop: one page of events onto what is already written. */
  method WritePage(events: seq<Event>, start: int, ghost items: seq<Item>, sent: string)
    returns (written: string, after: int)
    requires sent == StreamText(items)
    ensures written == StreamText(items + FramesOf(events))
    ensures after == LastSequence(events, start)
  {
    hide StreamText, Body;
    written, after := sent, start;
    assert items + FramesOf(events[..0]) == items;
    for i := 0 to |events|
      invariant written == StreamText(items + FramesOf(events[..i]))
      invariant after == LastSequence(events[..i], start)
    {
      ghost var before := items + FramesOf(events[..i]);
      AppendItem(before, Frame(events[i]));
      assert items + FramesOf(events[..i + 1]) == before + [Frame(events[i])];
      written := written + Body(Frame(events[i])) + "\n\n";
      after := events[i].sequence;
    }
    assert events[..|events|] == events;
  }

  function EventsIn(items: seq<Item>): seq<Event> {
    if items == [] then []
    else if items[0].Frame? then [items[0].event] + EventsIn(items[1..])
    else EventsIn(items[1..])
  }

  lemma {:induction false} EventsInAppend(a: seq<Item>, b: seq<Item>)
    ensures EventsIn(a + b) == EventsIn(a) + EventsIn(b)
  {
    if a == [] {
      assert a + b == b;
    } else {
      assert (a + b)[1..] == a[1..] + b;
      EventsInAppend(a[1..], b);
    }
  }

  lemma {:induction false} EventsInFrames(events: seq<Event>)
    ensures EventsIn(FramesOf(events)) == events
  {
    if events != [] {
      assert FramesOf(events)[1..] == FramesOf(events[1..]);
      EventsInFrames(events[1..]);
      assert events == [events[0]] + events[1..];
    }
  }

  /** One page is the start of what lies ahead, and the cursor moves right behind it. */
  lemma PageAhead(poll: seq<Event>, after: int, log: seq<Event>)
    requires Ascending(log) && poll <= log
    ensures var page := EventsAfter(poll, after);
            && page <= After(log, after)
            && After(log, LastSequence(page, after)) == After(log, after)[|page|..]
  {
    var page := EventsAfter(poll, after);
    AfterAppend(poll, log[|poll|..], after);
    assert log == poll + log[|poll|..];
    if page != [] {
      AfterResumes(log, after, |page|);
    }
  }

  lemma EventsOfPage(page: seq<Event>, tail: seq<Item>)
    ensures EventsIn(FramesOf(page) + ([KeepAlive] + tail)) == page + EventsIn(tail)
  {
    EventsInAppend(FramesOf(page), [KeepAlive] + tail);
    assert ([KeepAlive] + tail)[1..] == tail;
    EventsInFrames(page);
  }

  /** The events the handler writes are the log after the cursor, in order and without a gap. */
  lemma {:induction false} ServerEvents(polls: seq<seq<Event>>, after: int, log: seq<Event>)
    requires Ascending(log) && forall k | 0 <= k < |polls| :: polls[k] <= log
    ensures EventsIn(ServerItems(polls, after)) <= After(log, after)
  {
    hide EventsAfter, After, LastSequence, Ascending, FramesOf;
    if polls != [] {
      var page := EventsAfter(polls[0], after);
      var next := LastSequence(page, after);
      PageAhead(polls[0], after, log);
      ServerEvents(polls[1..], next, log);
      EventsOfPage(page, ServerItems(polls[1..], next));
    }
  }

  /** The bytes on the wire. */
  lemma WireTexts(e: Event)
    ensures StreamText([Frame(e)]) ==
            "id: " + Decimal(e.sequence) + "\nevent: run_event\ndata: " + e.data + "\n\n"
    ensures StreamText([KeepAlive]) == ": keepalive\n\n"
  {
    hide Decimal;
    AppendItem([], Frame(e));
    AppendItem([], KeepAlive);
    assert [] + [Frame(e)] == [Frame(e)] && [] + [KeepAlive] == [KeepAlive];
  }

  // The server leaves nothing behind

  lemma {:induction false} ServerParts(first: seq<seq<Event>>, second: seq<seq<Event>>, after: int)
    ensures var next := ServerAfter(first, after);
            && ServerItems(first + second, after) == ServerItems(first, after) + ServerItems(second, next)
            && ServerAfter(first + second, after) == ServerAfter(second, next)
  {
    hide EventsAfter, LastSequence, FramesOf;
    if first == [] {
      assert first + second == second;
    } else {
      var page := EventsAfter(first[0], after);
      assert (first + second)[1..] == first[1..] + second;
      ServerParts(first[1..], second, LastSequence(page, after));
    }
  }

  /** The cursor stands right behind what was written. */
  lemma {:induction false} ServerCursor(polls: seq<seq<Event>>, after: int, log: seq<Event>)
    requires Ascending(log) && forall k | 0 <= k < |polls| :: polls[k] <= log
    ensures var written := EventsIn(ServerItems(polls, after));
            && written <= After(log, after)
            && After(log, ServerAfter(polls, after)) == After(log, after)[|written|..]
  {
    hide EventsAfter, After, LastSequence, Ascending, FramesOf;
    ServerEvents(polls, after, log);
    if polls != [] {
      var page := EventsAfter(polls[0], after);
      var next := LastSequence(page, after);
      PageAhead(polls[0], after, log);
      ServerCursor(polls[1..], next, log);
      EventsOfPage(page, ServerItems(polls[1..], next));
      assert ServerAfter(polls, after) == ServerAfter(polls[1..], next);
    }
  }

  /** A poll writes the next 200 events of what it sees, or all when there are fewer, and then a keepalive. */
  lemma PollDelivers(poll: seq<Event>, after: int)
    ensures var ahead := After(poll, after);
            EventsIn(ServerItems([poll], after)) == if |ahead| <= 200 then ahead else ahead[..200]
    ensures var items := ServerItems([poll], after); items[|items| - 1] == KeepAlive
  {
    var page := EventsAfter(poll, after);
    EventsOfPage(page, []);
    assert [poll][1..] == [];
  }

  /**
    Enough polls of the log as it stands write everything that lay ahead: each
    takes 200 events off, whatever was written by the polls before.
   */
  lemma {:induction false} ServerCatchesUp(polls: seq<seq<Event>>, after: int, log: seq<Event>)
    requires Ascending(log) && forall k | 0 <= k < |polls| :: polls[k] == log
    requires |After(log, after)| <= 200 * |polls|
    ensures EventsIn(ServerItems(polls, after)) == After(log, after)
  {
    hide After, LastSequence, Ascending, FramesOf;
    if polls == [] {
      assert After(log, after) == [];
    } else {
      ServerParts([polls[0]], polls[1..], after);
      assert [polls[0]] + polls[1..] == polls;
      EventsInAppend(ServerItems([polls[0]], after), ServerItems(polls[1..], ServerAfter([polls[0]], after)));
      PollDelivers(log, after);
      ServerCursor([polls[0]], after, log);
      ServerCatchesUp(polls[1..], ServerAfter([polls[0]], after), log);
    }
  }

  lemma PrefixAndRest(p: seq<Event>, s: seq<Event>)
    requires p <= s
    ensures p + s[|p|..] == s
  {
  }

  /** So with earlier polls of a growing log before them, everything is written in the end. */
  lemma ServerDeliversAll(early: seq<seq<Event>>, late: seq<seq<Event>>, after: int, log: seq<Event>)
    requires Ascending(log) && forall k | 0 <= k < |early| :: early[k] <= log
    requires forall k | 0 <= k < |late| :: late[k] == log
    requires |After(log, after)| <= 200 * |late|
    ensures EventsIn(ServerItems(early + late, after)) == After(log, after)
  {
    hide After, Ascending, ServerItems, ServerAfter, EventsIn;
    var next := ServerAfter(early, after);
    ServerCursor(early, after, log);
    var written := EventsIn(ServerItems(early, after));
    ServerParts(early, late, after);
    EventsInAppend(ServerItems(early, after), ServerItems(late, next));
    ServerCatchesUp(late, next, log);
    PrefixAndRest(written, After(log, after));
  }

  // The client: frames

  /** `s.indexOf("\n\n")`, or |s| when there is none. */
  function IndexOfBoundary(s: string): (n: nat)
    ensures n <= |s|
    ensures n < |s| ==> n + 1 < |s| && s[n] == '\n' && s[n + 1] == '\n'
  {
    if |s| < 2 then |s|
    else if s[0] == '\n' && s[1] == '\n' then 0
    else 1 + IndexOfBoundary(s[1..])
  }

  /** The complete frames of a text, and what is left in the buffer. */
  function SplitFrames(s: string): (r: (seq<string>, string))
  {
    var n := IndexOfBoundary(s);
    if n == |s| then ([], s)
    else
      var (frames, rest) := SplitFrames(s[n + 2..]);
      ([s[..n]] + frames, rest)
  }

  predicate NoBoundary(s: string) {
    forall i | 0 <= i < |s| - 1 :: !(s[i] == '\n' && s[i + 1] == '\n')
  }

  lemma {:induction false} BoundaryAbsent(s: string)
    requires NoBoundary(s)
    ensures IndexOfBoundary(s) == |s|
  {
    if |s| >= 2 {
      BoundaryAbsent(s[1..]);
    }
  }

  lemma {:induction false} BoundaryAfter(s: string, t: string)
    requires NoBoundary(s) && (s == "" || s[|s| - 1] != '\n')
    ensures IndexOfBoundary(s + ("\n\n" + t)) == |s|
  {
    var whole := s + ("\n\n" + t);
    if s == "" {
      assert whole == "\n\n" + t;
    } else {
      assert whole[1..] == s[1..] + ("\n\n" + t);
      BoundaryAfter(s[1..], t);
    }
  }

  lemma {:induction false} BoundaryStays(s: string, t: string)
    requires IndexOfBoundary(s) < |s|
    ensures IndexOfBoundary(s + t) == IndexOfBoundary(s)
  {
    assert (s + t)[0] == s[0] && (s + t)[1] == s[1];
    if !(s[0] == '\n' && s[1] == '\n') {
      assert (s + t)[1..] == s[1..] + t;
      BoundaryStays(s[1..], t);
    }
  }

  /** Splitting as text arrives, carrying the rest over, is splitting the whole text. */
  lemma {:induction false} SplitIncrementally(s: string, t: string)
    ensures var (first, rest) := SplitFrames(s);
            var (second, left) := SplitFrames(rest + t);
            SplitFrames(s + t) == (first + second, left)
    decreases |s|
  {
    var n := IndexOfBoundary(s);
    if n < |s| {
      BoundaryStays(s, t);
      assert (s + t)[n + 2..] == s[n + 2..] + t;
      assert (s + t)[..n] == s[..n];
      SplitIncrementally(s[n + 2..], t);
      var (frames, rest) := SplitFrames(s[n + 2..]);
      var second := SplitFrames(rest + t).0;
      assert [s[..n]] + (frames + second) == ([s[..n]] + frames) + second;
    } else {
      assert [] + SplitFrames(s + t).0 == SplitFrames(s + t).0;
    }
  }

  // The client: one frame

  datatype Parsed = Parsed(event: string, id: string, data: string)

  function IndexOfChar(s: string, c: char): (n: nat)
    ensures n <= |s|
    ensures n < |s| ==> s[n] == c
  {
    if s == "" || s[0] == c then 0 else 1 + IndexOfChar(s[1..], c)
  }

  function Lines(s: string): (lines: seq<string>)
    ensures |lines| > 0
  {
    var n := IndexOfChar(s, '\n');
    if n == |s| then [s] else [s[..n]] + Lines(s[n + 1..])
  }

  datatype Fields = Fields(event: string, id: string, data: seq<string>)

  function FieldValue(line: string, separator: nat): string {
    if separator >= |line| then ""
    else
      var value := line[separator + 1..];
      if value != "" && value[0] == ' ' then value[1..] else value
  }

  /** One line's effect on the fields gathered so far. */
  function ReadLine(fields: Fields, line: string): Fields {
    if line == "" || line[0] == ':' then fields
    else
      var separator := IndexOfChar(line, ':');
      var name := line[..separator];
      var value := FieldValue(line, separator);
      if name == "event" then fields.(event := value)
      else if name == "id" then fields.(id := value)
      else if name == "data" then fields.(data := fields.data + [value])
      else fields
  }

  function ReadLines(fields: Fields, lines: seq<string>): Fields
    decreases lines
  {
    if lines == [] then fields else ReadLines(ReadLine(fields, lines[0]), lines[1..])
  }

  function ParseFrame(frame: string): Option<Parsed> {
    var fields := ReadLines(Fields("message", "", []), Lines(frame));
    if fields.data == [] then None else Some(Parsed(fields.event, fields.id, Join(fields.data)))
  }

  /** `parseSSEFrame`, line by line. */
  method ParseSSEFrame(frame: string) returns (parsed: Option<Parsed>)
    ensures parsed == ParseFrame(frame)
  {
    var event, id, data := "message", "", [];
    var lines := Lines(frame);
    for k := 0 to |lines|
      invariant ReadLines(Fields(event, id, data), lines[k..]) == ReadLines(Fields("message", "", []), lines)
    {
      var line := lines[k];
      assert lines[k..][1..] == lines[k + 1..];
      if line == "" || line[0] == ':' {
        continue;
      }
      var separator := IndexOfChar(line, ':');
      var field := line[..separator];
      var value := FieldValue(line, separator);
      if field == "event" {
        event := value;
      } else if field == "id" {
        id := value;
      } else if field == "data" {
        data := data + [value];
      }
    }
    if data == [] {
      return None;
    }
    return Some(Parsed(event, id, Join(data)));
  }

  /** Joining lines and splitting them are inverse, so a frame's data lines keep their text. */
  lemma {:induction false} LinesOfJoin(parts: seq<string>)
    requires parts != [] && forall part <- parts :: NoLineFeed(part)
    ensures Lines(Join(parts)) == parts
  {
    assert NoLineFeed(parts[0]);
    if |parts| == 1 {
      LastLine(parts[0]);
    } else {
      JoinFromTheFront(parts);
      assert parts == [parts[0]] + parts[1..];
      LinesOfJoin(parts[1..]);
      FirstLine(parts[0], Join(parts[1..]));
    }
  }

  predicate NoLineFeed(s: string) {
    forall i | 0 <= i < |s| :: s[i] != '\n'
  }

  lemma {:induction false} JoinFromTheFront(parts: seq<string>)
    requires |parts| > 1
    ensures Join(parts) == parts[0] + ("\n" + Join(parts[1..]))
  {
    var init, last := parts[..|parts| - 1], parts[|parts| - 1];
    if |parts| == 2 {
      assert Join(init) == parts[0] && Join(parts[1..]) == last;
    } else {
      JoinFromTheFront(init);
      assert init[1..] == parts[1..][..|parts| - 2];
      var middle := Join(init[1..]);
      assert parts[0] + ("\n" + middle) + "\n" + last == parts[0] + ("\n" + (middle + "\n" + last));
    }
  }

  /** The value of the last field of this name, if any. */
  function LastValue(fields: seq<(string, string)>, name: string, otherwise: string): string {
    if fields == [] then otherwise
    else if fields[|fields| - 1].0 == name then fields[|fields| - 1].1
    else LastValue(fields[..|fields| - 1], name, otherwise)
  }

  /** The values of all fields of this name, in order. */
  function Values(fields: seq<(string, string)>, name: string): seq<string> {
    if fields == [] then []
    else
      Values(fields[..|fields| - 1], name)
      + if fields[|fields| - 1].0 == name then [fields[|fields| - 1].1] else []
  }

  function FieldLines(fields: seq<(string, string)>): seq<string> {
    seq(|fields|, i requires 0 <= i < |fields| => fields[i].0 + (": " + fields[i].1))
  }

  /** Field names are not empty and hold no colon; nothing holds a line feed. */
  predicate Writable(fields: seq<(string, string)>) {
    forall field <- fields ::
      && field.0 != "" && (forall i | 0 <= i < |field.0| :: field.0[i] != ':')
      && NoLineFeed(field.0) && NoLineFeed(field.1)
  }

  lemma ReadAnyField(fields: Fields, name: string, value: string)
    requires name != "" && forall i | 0 <= i < |name| :: name[i] != ':'
    ensures ReadLine(fields, name + (": " + value)) ==
            match name
            case "event" => fields.(event := value)
            case "id" => fields.(id := value)
            case "data" => fields.(data := fields.data + [value])
            case _ => fields
  {
    var line := name + (": " + value);
    NoCharBefore(name, ':', ": " + value);
    assert line[..|name|] == name && line[0] == name[0] && line[|name| + 1..] == " " + value;
    assert (" " + value)[1..] == value;
  }

  lemma {:induction false} ReadLinesAppend(fields: Fields, lines: seq<string>, line: string)
    ensures ReadLines(fields, lines + [line]) == ReadLine(ReadLines(fields, lines), line)
    decreases |lines|
  {
    hide ReadLine;
    if lines == [] {
      assert [] + [line] == [line] && [line][1..] == [];
    } else {
      assert (lines + [line])[1..] == lines[1..] + [line];
      ReadLinesAppend(ReadLine(fields, lines[0]), lines[1..], line);
    }
  }

  lemma {:induction false} FieldsOfLines(fields: seq<(string, string)>)
    requires Writable(fields)
    ensures ReadLines(Fields("message", "", []), FieldLines(fields)) ==
            Fields(LastValue(fields, "event", "message"), LastValue(fields, "id", ""), Values(fields, "data"))
  {
    hide ReadLine;
    if fields != [] {
      var init, name, value := fields[..|fields| - 1], fields[|fields| - 1].0, fields[|fields| - 1].1;
      FieldsOfLines(init);
      assert FieldLines(fields) == FieldLines(init) + [name + (": " + value)];
      ReadLinesAppend(Fields("message", "", []), FieldLines(init), name + (": " + value));
      ReadAnyField(ReadLines(Fields("message", "", []), FieldLines(init)), name, value);
    }
  }

  /**
    Any frame of fields is parsed to its last event name, "message" without one,
    its last id and its data lines joined; without data it is no event.
   */
  lemma AnyFrameIsParsed(fields: seq<(string, string)>)
    requires fields != [] && Writable(fields)
    ensures ParseFrame(Join(FieldLines(fields))) ==
            if Values(fields, "data") == [] then None
            else Some(Parsed(LastValue(fields, "event", "message"), LastValue(fields, "id", ""),
                             Join(Values(fields, "data"))))
  {
    hide Lines, ReadLines, Join;
    forall line | line in FieldLines(fields) ensures NoLineFeed(line) {
      var k :| 0 <= k < |fields| && line == fields[k].0 + (": " + fields[k].1);
      assert fields[k] in fields;
    }
    LinesOfJoin(FieldLines(fields));
    FieldsOfLines(fields);
  }

  // The client: a connection

  /** What the subscriber has been handed, and the cursor for the next connection. */
  datatype Progress = Progress(handed: seq<string>, cursor: string)

  function Receive(progress: Progress, frame: string): Progress {
    match ParseFrame(frame)
    case None => progress
    case Some(p) =>
      if p.event == "run_event" && p.data != "" then
        Progress(progress.handed + [p.data], if p.id != "" then p.id else progress.cursor)
      else progress
  }

  function ReceiveAll(progress: Progress, frames: seq<string>): Progress
    decreases frames
  {
    if frames == [] then progress else ReceiveAll(Receive(progress, frames[0]), frames[1..])
  }

  lemma {:induction false} ReceiveAppend(progress: Progress, a: seq<string>, b: seq<string>)
    ensures ReceiveAll(progress, a + b) == ReceiveAll(ReceiveAll(progress, a), b)
    decreases a
  {
    if a == [] {
      assert a + b == b;
    } else {
      assert (a + b)[1..] == a[1..] + b;
      ReceiveAppend(Receive(progress, a[0]), a[1..], b);
    }
  }

  /** `text.replace(/\r\n/g, "\n")`. */
  function NormalizeNewlines(s: string): string {
    if |s| >= 2 && s[0] == '\r' && s[1] == '\n' then ['\n'] + NormalizeNewlines(s[2..])
    else if s == "" then ""
    else [s[0]] + NormalizeNewlines(s[1..])
  }

  lemma {:induction false} NormalizeLineFeeds(s: string)
    requires forall i | 0 <= i < |s| :: s[i] != '\r'
    ensures NormalizeNewlines(s) == s
  {
    if s != "" {
      NormalizeLineFeeds(s[1..]);
    }
  }

  /** A text with its line feeds as a sender with carriage returns writes them. */
  function WithReturns(s: string): string {
    if s == "" then "" else (if s[0] == '\n' then "\r\n" else [s[0]]) + WithReturns(s[1..])
  }

  /** Such a sender's text is read as the one with line feeds only. */
  lemma {:induction false} ReturnsAreDropped(s: string)
    requires forall i | 0 <= i < |s| :: s[i] != '\r'
    ensures NormalizeNewlines(WithReturns(s)) == s
  {
    if s != "" {
      ReturnsAreDropped(s[1..]);
      var rest := WithReturns(s[1..]);
      if s[0] == '\n' {
        assert ("\r\n" + rest)[2..] == rest;
      } else {
        assert ([s[0]] + rest)[1..] == rest;
      }
    }
  }

  function Concat(chunks: seq<string>): string {
    if chunks == [] then "" else Concat(chunks[..|chunks| - 1]) + NormalizeNewlines(chunks[|chunks| - 1])
  }

  /**
    The read loop of `consumeRunEvents` over one response body, whatever its
    chunks: the subscriber is handed exactly the complete frames of the whole text.
   */
  method ConsumeConnection(chunks: seq<string>, start: Progress) returns (progress: Progress)
    ensures progress == ReceiveAll(start, SplitFrames(Concat(chunks)).0)
  {
    progress := start;
    var buffered := "";
    ghost var text := "";
    for k := 0 to |chunks|
      invariant text == Concat(chunks[..k])
      invariant progress == ReceiveAll(start, SplitFrames(text).0)
      invariant buffered == SplitFrames(text).1
    {
      var decoded := NormalizeNewlines(chunks[k]);
      SplitIncrementally(text, decoded);
      buffered := buffered + decoded;
      assert chunks[..k + 1][..k] == chunks[..k];
      ghost var before, frames, left := progress, SplitFrames(buffered).0, SplitFrames(buffered).1;
      var boundary := IndexOfBoundary(buffered);
      while boundary < |buffered|
        invariant boundary == IndexOfBoundary(buffered)
        invariant SplitFrames(buffered).1 == left
        invariant ReceiveAll(progress, SplitFrames(buffered).0) == ReceiveAll(before, frames)
        decreases |buffered|
      {
        var frame := buffered[..boundary];
        buffered := buffered[boundary + 2..];
        var parsed := ParseSSEFrame(frame);
        if parsed.Some? && parsed.value.event == "run_event" && parsed.value.data != "" {
          progress := progress.(handed := progress.handed + [parsed.value.data]);
          if parsed.value.id != "" {
            progress := progress.(cursor := parsed.value.id);
          }
        }
        boundary := IndexOfBoundary(buffered);
      }
      ReceiveAppend(start, SplitFrames(text).0, frames);
      text := text + decoded;
    }
    assert chunks[..|chunks|] == chunks;
  }

  // The wire: server text read by the client

  lemma BodyShape(item: Item)
    requires item.Frame? ==> item.event.Encoded()
    ensures var body := Body(item); body != "" && NoBoundary(body) && body[|body| - 1] != '\n'
  {
    if item.Frame? {
      var digits, data := Decimal(item.event.sequence), item.event.data;
      var body := Body(item);
      var middle := "\nevent: run_event\ndata: ";
      assert body == "id: " + digits + middle + data;
      forall i | 0 <= i < |body| - 1 ensures !(body[i] == '\n' && body[i + 1] == '\n') {
        var k := i - 4 - |digits|;
        if 0 <= k < |middle| - 1 {
          assert body[i] == middle[k] && body[i + 1] == middle[k + 1];
        }
      }
    }
  }

  predicate ItemsEncoded(items: seq<Item>) {
    forall i | 0 <= i < |items| :: items[i].Frame? ==> items[i].event.Encoded()
  }

  function Bodies(items: seq<Item>): seq<string> {
    seq(|items|, i requires 0 <= i < |items| => Body(items[i]))
  }

  lemma FirstFrame(body: string, more: string)
    requires NoBoundary(body) && body != "" && body[|body| - 1] != '\n'
    ensures SplitFrames(body + ("\n\n" + more)).0 == [body] + SplitFrames(more).0
  {
    var text := body + ("\n\n" + more);
    BoundaryAfter(body, more);
    assert text[..|body|] == body && text[|body| + 2..] == more;
  }

  lemma CutInBody(body: string, tail: string, received: string)
    requires NoBoundary(body) && body != "" && body[|body| - 1] != '\n'
    requires received <= body + ("\n\n" + tail) && |received| < |body| + 2
    ensures SplitFrames(received).0 == []
  {
    forall i | 0 <= i < |received| - 1 ensures !(received[i] == '\n' && received[i + 1] == '\n') {
      assert received[i] == body[i];
      if i + 1 < |body| {
        assert received[i + 1] == body[i + 1];
      }
    }
    BoundaryAbsent(received);
  }

  lemma CutAfterBody(body: string, tail: string, received: string) returns (more: string)
    requires received <= body + ("\n\n" + tail) && |received| >= |body| + 2
    ensures received == body + ("\n\n" + more) && more <= tail
    ensures received == body + ("\n\n" + tail) ==> more == tail
  {
    var text := body + ("\n\n" + tail);
    more := received[|body| + 2..];
    assert text[|body| + 2..] == tail;
    assert received[..|body|] == text[..|body|] == body;
    assert received[|body|..|body| + 2] == text[|body|..|body| + 2] == "\n\n";
    assert more == text[|body| + 2..|received|];
  }

  /** A cut anywhere in the server's text leaves the complete frames of its first items. */
  lemma {:induction false} CutText(items: seq<Item>, received: string) returns (n: nat)
    requires ItemsEncoded(items) && received <= StreamText(items)
    ensures n <= |items| && SplitFrames(received).0 == Bodies(items[..n])
    ensures received == StreamText(items) ==> n == |items|
    decreases |items|
  {
    hide Body, SplitFrames, NoBoundary;
    if items == [] {
      n := 0;
      assert SplitFrames("").0 == [] by {
        EmptySplit();
      }
    } else {
      var body, tail := Body(items[0]), StreamText(items[1..]);
      BodyShape(items[0]);
      if |received| >= |body| + 2 {
        var more := CutAfterBody(body, tail, received);
        FirstFrame(body, more);
        n := CutText(items[1..], more);
        n := n + 1;
        assert Bodies(items[..n]) == [body] + Bodies(items[1..][..n - 1]);
      } else {
        n := 0;
        CutInBody(body, tail, received);
        assert |StreamText(items)| >= |body| + 2;
      }
    }
  }

  lemma EmptySplit()
    ensures SplitFrames("").0 == []
  {
  }

  // Reading one frame back

  lemma {:induction false} NoCharBefore(s: string, c: char, t: string)
    requires forall i | 0 <= i < |s| :: s[i] != c
    requires t == "" || t[0] == c
    ensures IndexOfChar(s + t, c) == |s|
  {
    if s == "" {
      assert s + t == t;
    } else {
      assert (s + t)[1..] == s[1..] + t;
      NoCharBefore(s[1..], c, t);
    }
  }

  lemma FirstLine(line: string, more: string)
    requires forall i | 0 <= i < |line| :: line[i] != '\n'
    ensures Lines(line + ("\n" + more)) == [line] + Lines(more)
  {
    var s := line + ("\n" + more);
    NoCharBefore(line, '\n', "\n" + more);
    assert s[..|line|] == line && s[|line| + 1..] == more;
  }

  lemma LastLine(line: string)
    requires forall i | 0 <= i < |line| :: line[i] != '\n'
    ensures Lines(line) == [line]
  {
    NoCharBefore(line, '\n', "");
    assert line + "" == line;
  }

  lemma ReadField(fields: Fields, name: string, value: string)
    requires name == "event" || name == "id" || name == "data"
    ensures ReadLine(fields, name + (": " + value)) ==
            if name == "event" then fields.(event := value)
            else if name == "id" then fields.(id := value)
            else fields.(data := fields.data + [value])
  {
    var line := name + (": " + value);
    NoCharBefore(name, ':', ": " + value);
    assert line[..|name|] == name;
    assert line[|name| + 1..] == " " + value;
    assert (" " + value)[1..] == value;
    assert line[0] == name[0] != ':';
  }

  lemma FrameLines(e: Event)
    requires e.Encoded()
    ensures Lines(Body(Frame(e))) ==
        ["id" + (": " + Decimal(e.sequence)), "event" + (": " + "run_event"), "data" + (": " + e.data)]
  {
    hide Decimal, Lines;
    var id, event, data := "id" + (": " + Decimal(e.sequence)), "event" + (": " + "run_event"),
      "data" + (": " + e.data);
    assert Body(Frame(e)) == id + ("\n" + (event + ("\n" + data)));
    FirstLine(id, event + ("\n" + data));
    FirstLine(event, data);
    LastLine(data);
  }

  /** The client reads back what the server wrote: event name, id and data. */
  lemma ParseServerFrame(e: Event)
    requires e.Encoded()
    ensures ParseFrame(Body(Frame(e))) == Some(Parsed("run_event", Decimal(e.sequence), e.data))
  {
    hide Body, Lines, ReadLine;
    FrameLines(e);
    var id := "id" + (": " + Decimal(e.sequence));
    var lines := [id, "event" + (": " + "run_event"), "data" + (": " + e.data)];
    var f0 := Fields("message", "", []);
    var f1, f2 := f0.(id := Decimal(e.sequence)), f0.(id := Decimal(e.sequence), event := "run_event");
    ReadField(f0, "id", Decimal(e.sequence));
    ReadField(f1, "event", "run_event");
    ReadField(f2, "data", e.data);
    assert lines[1..] == [lines[1], lines[2]] && lines[1..][1..] == [lines[2]] && lines[1..][1..][1..] == [];
    assert ReadLines(f0, lines) == ReadLines(f1, lines[1..]);
    assert ReadLines(f1, lines[1..]) == ReadLines(f2, lines[1..][1..]);
  }

  /** A keepalive comment hands over nothing. */
  lemma ParseKeepAlive()
    ensures ParseFrame(Body(KeepAlive)) == None
  {
    hide IndexOfChar, FieldValue;
    var f := Fields("message", "", []);
    LastLine(": keepalive");
    assert ReadLine(f, ": keepalive") == f;
    assert ReadLines(f, [": keepalive"]) == ReadLines(f, [": keepalive"][1..]);
  }

  function DataOf(events: seq<Event>): seq<string> {
    seq(|events|, i requires 0 <= i < |events| => events[i].data)
  }

  lemma DecimalIsText(n: nat)
    ensures Decimal(n) != ""
  {
  }

  lemma ReceiveOne(progress: Progress, item: Item)
    requires item.Frame? ==> item.event.Encoded()
    ensures Receive(progress, Body(item)) ==
            if item.Frame? then Progress(progress.handed + [item.event.data], Decimal(item.event.sequence))
            else progress
  {
    hide Body, ParseFrame, Decimal;
    if item.Frame? {
      ParseServerFrame(item.event);
      DecimalIsText(item.event.sequence);
    } else {
      ParseKeepAlive();
    }
  }

  function CursorAfter(cursor: string, events: seq<Event>): string {
    if events == [] then cursor else Decimal(events[|events| - 1].sequence)
  }

  lemma DataAhead(handed: seq<string>, e: Event, rest: seq<Event>)
    ensures handed + DataOf([e] + rest) == handed + [e.data] + DataOf(rest)
    ensures forall cursor :: CursorAfter(cursor, [e] + rest) == CursorAfter(Decimal(e.sequence), rest)
  {
    hide Decimal;
    assert DataOf([e] + rest) == [e.data] + DataOf(rest);
  }

  /** Receiving the frames of server items hands over their events and moves the cursor to the last. */
  lemma {:induction false} ReceiveItems(progress: Progress, items: seq<Item>)
    requires ItemsEncoded(items)
    ensures ReceiveAll(progress, Bodies(items)) ==
            Progress(progress.handed + DataOf(EventsIn(items)), CursorAfter(progress.cursor, EventsIn(items)))
    decreases |items|
  {
    hide Body, Receive, Decimal, DataOf, CursorAfter;
    if items == [] {
      NothingReceived(progress);
    } else {
      var first, rest := items[0], EventsIn(items[1..]);
      assert Bodies(items)[0] == Body(first) && Bodies(items)[1..] == Bodies(items[1..]);
      ReceiveOne(progress, first);
      ReceiveItems(Receive(progress, Body(first)), items[1..]);
      if first.Frame? {
        DataAhead(progress.handed, first.event, rest);
      }
    }
  }

  lemma NothingReceived(progress: Progress)
    ensures progress.handed + DataOf([]) == progress.handed
    ensures CursorAfter(progress.cursor, []) == progress.cursor
  {
  }

  // Sessions

  /** One request: what each of the server's queries saw, and the chunks that arrived before the cut. */
  datatype Connection = Connection(polls: seq<seq<Event>>, chunks: seq<string>)

  function Raw(chunks: seq<string>): string {
    if chunks == [] then "" else Raw(chunks[..|chunks| - 1]) + chunks[|chunks| - 1]
  }

  /** strconv.ParseInt of the `after` parameter, error ignored: no number is zero, too large a one is clamped. */
  function CursorValue(cursor: string): int {
    match Atoi(cursor)
    case None => 0
    case Some(n) => if n > MAX_INT64 then MAX_INT64 else if n < MIN_INT64 then MIN_INT64 else n
  }

  /** A cursor that is no number starts at the beginning, and any number stands for itself, however large. */
  lemma CursorsStand(log: seq<Event>, cursor: string)
    requires AllEncoded(log) && forall e <- log :: e.sequence > 0
    ensures After(log, CursorValue(cursor)) ==
            match Atoi(cursor) case None => log case Some(n) => After(log, n)
  {
    hide Atoi, After;
    match Atoi(cursor)
    case None => AfterEverything(log, 0);
    case Some(n) =>
      if n > MAX_INT64 {
        AfterNothing(log, n);
        AfterNothing(log, MAX_INT64);
      } else if n < MIN_INT64 {
        AfterEverything(log, n);
        AfterEverything(log, MIN_INT64);
      }
  }

  /** The connection was served from the log at this cursor and cut somewhere. */
  predicate Served(c: Connection, cursor: string, log: seq<Event>) {
    && (forall k | 0 <= k < |c.polls| :: c.polls[k] <= log)
    && Raw(c.chunks) <= StreamText(ServerItems(c.polls, CursorValue(cursor)))
  }

  function RunConnection(progress: Progress, c: Connection): Progress {
    ReceiveAll(progress, SplitFrames(Concat(c.chunks)).0)
  }

  function RunSession(progress: Progress, connections: seq<Connection>): Progress {
    if connections == [] then progress
    else RunConnection(RunSession(progress, connections[..|connections| - 1]), connections[|connections| - 1])
  }

  predicate SessionServed(start: Progress, connections: seq<Connection>, log: seq<Event>) {
    forall i | 0 <= i < |connections| :: Served(connections[i], RunSession(start, connections[..i]).cursor, log)
  }

  predicate NoReturn(s: string) {
    forall i | 0 <= i < |s| :: s[i] != '\r'
  }

  lemma NoReturnJoined(s: string, t: string)
    requires NoReturn(s) && NoReturn(t)
    ensures NoReturn(s + t)
  {
  }

  lemma BodyLineFeeds(item: Item)
    requires item.Frame? ==> item.event.Encoded()
    ensures NoReturn(Body(item))
  {
    if item.Frame? {
      var digits := Decimal(item.event.sequence);
      assert NoReturn(digits);
      NoReturnJoined("id: ", digits);
      NoReturnJoined("id: " + digits, "\nevent: run_event\ndata: ");
      NoReturnJoined("id: " + digits + "\nevent: run_event\ndata: ", item.event.data);
    }
  }

  lemma {:induction false} LineFeedsOnly(items: seq<Item>)
    requires ItemsEncoded(items)
    ensures NoReturn(StreamText(items))
  {
    hide Body, NoReturn;
    if items == [] {
      assert NoReturn("") by {
        NoReturnEmpty();
      }
    } else {
      LineFeedsOnly(items[1..]);
      BodyLineFeeds(items[0]);
      NoReturnEmpty();
      NoReturnJoined("\n\n", StreamText(items[1..]));
      NoReturnJoined(Body(items[0]), "\n\n" + StreamText(items[1..]));
    }
  }

  lemma NoReturnEmpty()
    ensures NoReturn("") && NoReturn("\n\n")
  {
  }

  lemma {:induction false} NormalizeRaw(chunks: seq<string>)
    requires NoReturn(Raw(chunks))
    ensures Concat(chunks) == Raw(chunks)
  {
    if chunks != [] {
      var init, last := chunks[..|chunks| - 1], chunks[|chunks| - 1];
      var n := |Raw(init)|;
      assert forall i | 0 <= i < n :: Raw(init)[i] == Raw(chunks)[i];
      assert forall i | 0 <= i < |last| :: last[i] == Raw(chunks)[n + i];
      NormalizeRaw(init);
      NormalizeLineFeeds(last);
    }
  }

  lemma {:induction false} PollEvents(polls: seq<seq<Event>>, after: int, log: seq<Event>)
    requires AllEncoded(log) && forall k | 0 <= k < |polls| :: polls[k] <= log
    ensures ItemsEncoded(ServerItems(polls, after))
  {
    if polls != [] {
      var page := EventsAfter(polls[0], after);
      AfterMembers(polls[0], after);
      assert forall i | 0 <= i < |page| :: page[i] in After(polls[0], after);
      assert forall i | 0 <= i < |page| :: page[i] in log;
      PollEvents(polls[1..], LastSequence(page, after), log);
    }
  }

  lemma {:induction false} AfterMembers(log: seq<Event>, after: int)
    ensures forall e | e in After(log, after) :: e in log
  {
    if log != [] {
      AfterMembers(log[1..], after);
    }
  }

  lemma EncodedAhead(log: seq<Event>, after: int, i: nat)
    requires AllEncoded(log) && i < |After(log, after)|
    ensures After(log, after)[i].Encoded()
  {
    AfterMembers(log, after);
    var e := After(log, after)[i];
    assert e in log;
    var k :| 0 <= k < |log| && log[k] == e;
  }

  lemma EventsInPrefix(items: seq<Item>, n: nat)
    requires n <= |items|
    ensures EventsIn(items[..n]) <= EventsIn(items)
  {
    EventsInAppend(items[..n], items[n..]);
    assert items == items[..n] + items[n..];
  }

  lemma CursorOfDecimal(n: nat)
    requires n <= MAX_INT64
    ensures CursorValue(Decimal(n)) == n
  {
    DecimalValue(n);
  }

  /**
    One connection from a cursor: the subscriber is handed the next m events of
    the log, for some m, and the cursor moves past exactly those. When the whole
    text arrives, nothing the server wrote is missing.
   */
  lemma ConnectionStep(progress: Progress, c: Connection, log: seq<Event>) returns (m: nat)
    requires Ascending(log) && AllEncoded(log) && Served(c, progress.cursor, log)
    ensures var ahead := After(log, CursorValue(progress.cursor));
            var next := RunConnection(progress, c);
            && m <= |ahead|
            && next.handed == progress.handed + DataOf(ahead[..m])
            && After(log, CursorValue(next.cursor)) == ahead[m..]
    ensures var items := ServerItems(c.polls, CursorValue(progress.cursor));
            Raw(c.chunks) == StreamText(items) ==> m == |EventsIn(items)|
  {
    hide Body, StreamText, SplitFrames, EventsAfter, Decimal, CursorValue;
    var after := CursorValue(progress.cursor);
    var items := ServerItems(c.polls, after);
    var ahead := After(log, after);
    PollEvents(c.polls, after, log);
    LineFeedsOnly(items);
    NormalizeRaw(c.chunks);
    var n := CutText(items, Raw(c.chunks));
    ReceiveItems(progress, items[..n]);
    ServerEvents(c.polls, after, log);
    EventsInPrefix(items, n);
    var events := EventsIn(items[..n]);
    m := |events|;
    assert events == ahead[..m];
    if m > 0 {
      EncodedAhead(log, after, m - 1);
      assert events[m - 1] == ahead[m - 1];
      CursorOfDecimal(events[m - 1].sequence);
      AfterResumes(log, after, m);
    }
    if n == |items| {
      assert items[..n] == items;
    }
  }

  /**
    Over any number of connections, cut and chunked anywhere, the subscriber has
    been handed exactly a prefix of the log after the first cursor, and the
    current cursor resumes right behind it: no gap and no duplicate.
   */
  lemma {:induction false} SessionDeliversLogPrefix(cursor: string, connections: seq<Connection>, log: seq<Event>)
    returns (h: nat)
    requires Ascending(log) && AllEncoded(log)
    requires SessionServed(Progress([], cursor), connections, log)
    ensures var ahead := After(log, CursorValue(cursor));
            var end := RunSession(Progress([], cursor), connections);
            && h <= |ahead|
            && end.handed == DataOf(ahead[..h])
            && After(log, CursorValue(end.cursor)) == ahead[h..]
    decreases |connections|
  {
    hide CursorValue, Raw, RunConnection, After, Served, SessionServed;
    var start := Progress([], cursor);
    var ahead := After(log, CursorValue(cursor));
    if connections == [] {
      h := 0;
    } else {
      var init, last := connections[..|connections| - 1], connections[|connections| - 1];
      InitServed(start, connections, log);
      h := SessionDeliversLogPrefix(cursor, init, log);
      var m := ConnectionStep(RunSession(start, init), last, log);
      JoinSlices(ahead, h, m);
      h := h + m;
    }
  }

  /**
    A session hands over all that lay ahead when its last connection arrives
    whole and its server polled the whole log often enough.
   */
  lemma SessionDeliversAll(cursor: string, connections: seq<Connection>, log: seq<Event>, late: nat)
    requires Ascending(log) && AllEncoded(log) && connections != []
    requires SessionServed(Progress([], cursor), connections, log)
    requires var last := connections[|connections| - 1];
             var at := CursorValue(RunSession(Progress([], cursor), connections[..|connections| - 1]).cursor);
             && Raw(last.chunks) == StreamText(ServerItems(last.polls, at))
             && late <= |last.polls| && |After(log, CursorValue(cursor))| <= 200 * late
             && forall k | |last.polls| - late <= k < |last.polls| :: last.polls[k] == log
    ensures RunSession(Progress([], cursor), connections).handed == DataOf(After(log, CursorValue(cursor)))
  {
    hide CursorValue, Raw, RunConnection, After, Served, SessionServed, Ascending, AllEncoded, StreamText;
    var start, ahead := Progress([], cursor), After(log, CursorValue(cursor));
    var init, last := connections[..|connections| - 1], connections[|connections| - 1];
    InitServed(start, connections, log);
    var h := SessionDeliversLogPrefix(cursor, init, log);
    var m := ConnectionStep(RunSession(start, init), last, log);
    var at := CursorValue(RunSession(start, init).cursor);
    var early, tail := last.polls[..|last.polls| - late], last.polls[|last.polls| - late..];
    assert early + tail == last.polls;
    assert forall k | 0 <= k < |early| :: early[k] == last.polls[k];
    PollsServed(last, RunSession(start, init).cursor, log);
    ServerDeliversAll(early, tail, at, log);
    JoinSlices(ahead, h, m);
    assert ahead[..h + m] == ahead;
  }

  lemma PollsServed(c: Connection, cursor: string, log: seq<Event>)
    requires Served(c, cursor, log)
    ensures forall k | 0 <= k < |c.polls| :: c.polls[k] <= log
  {
  }

  lemma InitServed(start: Progress, connections: seq<Connection>, log: seq<Event>)
    requires connections != [] && SessionServed(start, connections, log)
    ensures var init := connections[..|connections| - 1];
            && SessionServed(start, init, log)
            && Served(connections[|connections| - 1], RunSession(start, init).cursor, log)
  {
    hide Served, RunSession;
    var init := connections[..|connections| - 1];
    forall i | 0 <= i < |init| ensures Served(init[i], RunSession(start, init[..i]).cursor, log) {
      assert init[..i] == connections[..i] && init[i] == connections[i];
    }
  }

  lemma JoinSlices(ahead: seq<Event>, h: nat, m: nat)
    requires h + m <= |ahead|
    ensures DataOf(ahead[..h]) + DataOf(ahead[h..][..m]) == DataOf(ahead[..h + m])
    ensures ahead[h..][m..] == ahead[h + m..]
  {
  }
}
