# AetherOps core, modelled and proved in Dafny

AetherOps runs research jobs on a desktop: a Go core drives a Codex App Server
over JSON-RPC, asks the user to approve side effects, keeps evidence in a
content-addressed store, and shows progress in a browser. This project models
the parts of it whose correctness rests on protocols and exact arithmetic, and
proves their properties for every input, every interleaving or every reachable
state. `dafny verify dfyconfig.toml` checks everything.

## How it is organized

Exact texts and numbers (functions, with methods where the program loops or
writes in place):

- `Text`, `Calendar`, `Schedules`, `Hashing`, `Wrappers`: string order, decimal
  numerals, the proleptic Gregorian calendar, interleaved runs, bytes and
  abstract hashes.
- `JsonText`, `JsonForms`, `CanonicalJson`: an RFC 8259 reader (sections 2 to 7)
  and the compact writer, the grammar they are proved against, and the canonical
  argument string.
- `KnowledgeTime`, `TimeForms`: RFC 3339 instants (section 5.6) and their
  fixed-width canonical strings, and every form of text that is read as one.
- `DecimalRational`, `UnitProjection`, `KnowledgeUnits`: decimal numerals as
  exact rationals (Dafny's reals), the 18-place printer, SI conversion,
  validation and in-place canonicalization.
- `SidecarTree`: the bytes behind the product identity, with a decoder.

Stateful components (classes whose methods are proved against functions on
values, and loops with invariants):

- `RunStates`, `UncertainMark`: the status table, and the compare-and-swap retry
  loop against arbitrary legal writers and faulty store calls.
- `Turns`: turn objects built up by notifications, and the event queue.
- `Elicitation`: the two maps that bind approval requests to tool calls.
- `CasReconcile`: enumeration and removal over a directory tree.
- `EventStream`: the endless server handler, the incremental client reader, and
  sessions of connections that are cut anywhere.
- `RunProgress`: the bounded activity history.

Concurrent protocols (every critical section, channel operation and store call
is one step; a schedule picks the steps, and a theorem speaks of all schedules):

- `ApprovalProtocol`, `ApprovalSteps`, `ApprovalWaits`, `ApprovalStages`: the
  router loop, user decisions, and the other writers of runs, stage attempts and approval rows;
  which wait a restore belongs to, when a decided run is released, and what
  makes every restore right.
- `ToolAnnotations`: the tools the bundled servers publish, and that their
  annotations and the approval policy agree.
- `ApprovalScenarios`, `StaleRestores`: whole exchanges, and inputs on which a
  release or a restore goes wrong.
- `CoreAuthorizer`: approval of a planned matrix through one visible cell.
- `RpcCalls`: the pending-call table with its capacity-one channels.
- `CasStore`: puts, deletions, start-up removal and crashes between any steps.
- `WorkerPool`: the removal pool of the reconciliation.

What the SQLite store does is stated as contracts of the calls: a transition
succeeds only on the expected revision and along the status table, deciding an
approval changes only a pending row, and so on. Clocks, process output, the
network, hash values and store faults are parameters or choices of the schedule.
Where a property needs a hash without collisions, it asks for that only among the
byte strings that occur.

## Where the program does less than it seems to promise

- Interval strings. The comments promise fixed-width strings whose order is the
  order of time. A closed interval can end in UTC year 10000 (an offset carries
  the last hours of 9999 over), whose string is wider; it then sorts before the
  start exactly when the start lies in a year from 1001 to 9999
  (`KnowledgeTime.ClosedIntervalOrder`, example `ReversedStringsExample`).
  Strings for years outside 0 to 9999 are not accepted back.
- Bounded history. A run that left the window of recent events loses its stage
  marker for good. The bounded history answers like the full one exactly when
  the run has no marker or stayed in the window since its newest one
  (`RunProgress.BoundedAnswersLikeFull`, example `LosingTheMarker`).
- Restored stages. A restore puts a run back into the status before the wait its
  entry stems from, which need not be the present one. The rule is exact
  (`ApprovalWaits.RestoresReturnToTheWait`): the row that began the wait was
  written one revision before it, a row that joined it was written during it,
  after a reading of the run during it, and with the prior of a row of the same
  wait. The revision a row was written at is in the store's event log
  (internal/store/repository.go:854, 2539), the revision read and the source of
  the prior are in the handler's hands. It fails in two ways. A prior is copied
  from an entry of an earlier wait whose stage attempt is over
  (`StaleRestores.PriorsCanBeStale`, from the start in `StaleExample`). Or a
  request is denied and, before the second store call of the same decision, its
  run is interrupted, resumed and waits in another stage; the second call then
  ends that wait (`StaleRestores.ResumesCanBeLate`). Two checks, each of whether
  the attempt that asked is still in progress, at the copy and at the resume,
  exclude both: with them every restore puts its run back where the present wait
  began (`ApprovalStages.CheckedRestoresAreRight`), provided that the other
  writers take a run into another stage only after the attempts that asked have
  ended. The engine does: collecting ends after every collector has
  (internal/research/engine.go:532-544, 740), and an interrupted run is resumed
  after its open attempts were superseded
  (internal/store/repository.go:1737-1815). That proviso is needed: a row written
  after the wait that was read would restore the wrong stage too
  (`StaleRestores.PriorsCanBeLate`), but only if a writer changed the stage while
  an attempt is open, so the program does not fail that way.
  `ApprovalWaits.CopyGuard` and `ApprovalWaits.ParkGuard` say which check keeps
  entries of one wait apart from those of another.
- Released runs. A request whose row was written but which is then refused leaves
  a pending row that is in nobody's memory. Such an orphan keeps its run waiting:
  later requests are decided and answered, but nothing the loop or the users do
  releases the run (`ApprovalWaits.ReleasedExactly`,
  `ApprovalWaits.OrphanBlocksRelease`, example
  `ApprovalScenarios.OrphansKeepRunsWaiting`). A pending row of the core
  authorizer blocks the release in the same way, and is in no memory once the
  authorizer's context has ended (internal/approval/core_authorizer.go:92-95).

## Model

| member | source | states |
|---|---|---|
| JsonText.WriteThenRead | internal/codex/mcp_elicitation.go:364-379 | reading what the compact writer wrote gives the same document, through every escape and number |
| JsonForms.FormsAreRead | internal/codex/mcp_elicitation.go:364-379 | every text of the JSON grammar, with any white space, any escapes and spellings of characters and any number, is read as the document it means |
| JsonForms.OnlyFormsAreRead | internal/codex/mcp_elicitation.go:364-379 | nothing else is read: an accepted text is one of the grammar and means what was read |
| JsonForms.WritesCompactly | internal/codex/mcp_elicitation.go:364-379 | the writer puts no white space between tokens, leaves plain characters as they are and escapes exactly the special ones, each in one way |
| CanonicalJson.ConsumeDocument | internal/codex/mcp_elicitation.go:410-457 | the token scan consumes exactly one value and fails on it exactly when an object at some depth repeats a key |
| CanonicalJson.AcceptedExactlyWhenUnique | internal/codex/mcp_elicitation.go:381-408 | acceptance: well-formed, an object, and no repeated key at any depth, in both directions |
| CanonicalJson.ValuesEqualExactlyWhenSame | internal/codex/mcp_elicitation.go:364-379 | decoding forgets the order of members and nothing else |
| CanonicalJson.CanonicalForm | internal/codex/mcp_elicitation.go:364-379 | two accepted texts have equal canonical strings exactly when they are the same JSON up to member order, white space and escapes |
| CanonicalJson.CanonicalReadsBack | internal/codex/mcp_elicitation.go:364-379 | reparsing the canonical string gives the decoded value, with the members in ascending order of their keys at every depth |
| CanonicalJson.CanonicalDenotesOriginal | internal/codex/mcp_elicitation.go:364-379 | the canonical string is accepted again, denotes the original, and is its own canonical string |
| Calendar.DatesAreDays | internal/core/knowledge_time.go:14-16 | dates and day numbers correspond one to one, in order |
| Calendar.DaysCountedFromMarch | internal/core/knowledge_time.go:14-16 | the day number is the one counted from March on, without a leap rule and without a table of months |
| Calendar.FieldsOfInstant | internal/core/knowledge_time.go:14-16 | the UTC fields of an instant are valid and give the instant back |
| KnowledgeTime.OffsetsNeverChangeTheInstant | internal/core/knowledge_time.go:18-36 | an instant written at any offset parses to that instant and canonicalizes to one string |
| TimeForms.FormsAreRead | internal/core/knowledge_time.go:8-28 | a text of any form, with no fraction or any number of digits after a point or comma, Z or an offset, is read exactly when its parts denote an instant, as that instant cut at the nanosecond |
| TimeForms.OnlyFormsAreRead | internal/core/knowledge_time.go:18-28 | whatever is read as an instant is a text of such a form that denotes it |
| TimeForms.BoundariesOfForms | internal/core/knowledge_time.go:18-36 | canonicalizing a boundary of any form gives the canonical text of the instant it denotes, and fails exactly when it denotes none |
| KnowledgeTime.YearsAreWritten | internal/core/knowledge_time.go:14-16 | years are written in four digits or as many as they have, with a sign exactly when negative |
| KnowledgeTime.CanonicalReadsBackExactlyInRange | internal/core/knowledge_time.go:14-36 | the canonical string parses back, and is a fixpoint, exactly for UTC years 0 to 9999 |
| KnowledgeTime.CanonicalOrder | internal/core/knowledge_time.go:8-16 | in those years string order is time order and equal strings mean equal instants |
| KnowledgeTime.ParsedYears | internal/core/knowledge_time.go:18-28 | whatever parses lies in UTC years -1 to 10000 |
| KnowledgeTime.ParsedOrder | internal/core/knowledge_time.go:14-28 | over all parsed instants, strings are reversed exactly when an interval from 1001-9999 ends in year 10000 |
| KnowledgeTime.ClosedIntervalAcceptance | internal/core/knowledge_time.go:38-61 | a closed interval is accepted exactly when both ends parse and are not reversed in time |
| KnowledgeTime.IntervalsAreTheirBounds | internal/core/knowledge_time.go:38-61 | any interval, open at either end or closed, is accepted exactly when its bounds are and are not reversed, and each end is the canonical form of its own bound |
| KnowledgeTime.ClosedIntervalOrder | internal/core/knowledge_time.go:38-61 | an accepted closed interval has `from <= to` as strings exactly outside that family |
| KnowledgeTime.ReversedStringsExample | internal/core/knowledge_time.go:38-61 | a concrete accepted interval whose strings are reversed |
| DecimalRational.ParseRendered | internal/core/units.go:219-261 | every numeral of the grammar with exponent in [-1000, 1000], padded with white space, parses to its mathematical value, and with another exponent not at all |
| DecimalRational.ParseAcceptance | internal/core/units.go:219-235 | nothing but such numerals is accepted |
| DecimalRational.NumeralFinite | internal/core/types.go:1154-1161 | no numeral of the grammar is one of the non-finite words |
| DecimalRational.NonFiniteWords | internal/core/types.go:1154-1161 | the non-finite words are exactly nan, inf and infinity, with or without a sign, in any case, with space around |
| UnitProjection.RoundedIsNearest | internal/core/units.go:187-194 | the rounded value is within half of 10^-18, and ties go away from zero |
| UnitProjection.RoundedIsExact | internal/core/units.go:187-194 | a value with at most 18 decimals is not changed |
| UnitProjection.ProjectionRoundTrip | internal/core/units.go:187-194 | reparsing the printed string gives the rounded value |
| UnitProjection.ProjectionCanonical | internal/core/units.go:187-194 | printing is a fixpoint, and equal strings mean equal rounded values |
| UnitProjection.ProjectionSign | internal/core/units.go:187-194 | a minus sign is printed exactly for negative rounded values, so never "-0" |
| UnitProjection.ProjectionIsShort | internal/core/units.go:187-194 | no point without a fraction, no trailing zero after it, no leading zero before other digits |
| KnowledgeUnits.AcceptedIsConversion | internal/core/units.go:83-137 | an accepted unit-bearing literal has a fitting unit and an SI value within half of 10^-18 of value*factor+offset |
| KnowledgeUnits.AcceptedLiterals | internal/core/units.go:83-137 | the acceptance of every literal, with a unit or without, in both directions |
| KnowledgeUnits.ErrorsNameTheirCause | internal/core/units.go:83-137 | each error of the validator names a cause that is there |
| KnowledgeUnits.AcceptedExactly | internal/core/units.go:106-137 | among well-formed literals exactly the exact value and its canonical text are accepted |
| KnowledgeUnits.CanonicalizedPassesValidation | internal/core/units.go:139-171 | a canonicalized literal with a compatible datatype passes validation |
| KnowledgeUnits.CanonicalizedIsConversion | internal/core/units.go:160-171 | what canonicalization writes is within half of 10^-18 of value*factor+offset |
| KnowledgeUnits.LengthsAndAreasAgree | internal/core/units.go:42-53 | for every amount: 1 km is 1000 m, 1 m is 100 cm, 1 cm2 is 100 mm2 and so on canonicalize to one SI value, no factor named |
| KnowledgeUnits.OtherUnitsAgree | internal/core/units.go:54-69 | likewise for masses, times, speeds, pressures and temperatures: 36 km/h is 10 m/s, x °C is x + 273.15 K |
| KnowledgeUnits.DegreesAreRadians | internal/core/units.go:65-66 | half a turn in degrees is pi to fifteen places |
| KnowledgeUnits.UnitsAreMeasuredInSI | internal/core/units.go:40-70 | every unit is measured in the SI unit of its dimension |
| KnowledgeUnits.SIUnitsStand | internal/core/units.go:40-70 | an amount in an SI unit is its own SI value |
| KnowledgeUnits.DimensionsAreNamed | internal/core/units.go:72-81 | a dimensioned datatype is named after its dimension, and every dimension has one |
| KnowledgeUnits.NumericByLocalName | internal/core/units.go:204-217 | a datatype is numeric by its local name alone, in any case and behind any prefix |
| KnowledgeUnits.NumericNames | internal/core/units.go:204-217 | the numeric names are the general types, the signed kinds of integers and four widths, signed or not |
| KnowledgeUnits.CanonicalizedAgain | internal/core/units.go:139-171 | canonicalization is idempotent |
| KnowledgeUnits.LiteralCell.Canonicalize | internal/core/units.go:149-171 | writes an SI value that states value*factor+offset and the SI unit in place, and leaves lexical form, datatype and unit alone |
| KnowledgeUnits.CanonicalizeUnitProjections | internal/core/units.go:142-185 | after success every object and qualifier literal is canonical, also where owners share one, keeps its lexical form and unit, states value*factor+offset, and passes the validator where its datatype fits; an error names the failure of some literal |
| KnowledgeUnits.CanonicalizeAssertion | internal/core/units.go:172-182 | object and qualifiers in turn: on success all are canonical, an error names a literal that fails, and what was canonical stays so |
| EventStream.AfterResumes | internal/store/repository.go:1921-1950 | moving the cursor to the n-th answer drops exactly the first n |
| EventStream.HandleEvents | internal/api/server.go:1430-1464 | the handler writes the frames and keepalives of its polls and ends at the last sequence it wrote |
| EventStream.ServerEvents | internal/api/server.go:1430-1464 | the events written over any polls of a growing log are the next ones of the log, in order |
| EventStream.PollDelivers | internal/api/server.go:1441-1461 | each poll writes the next 200 events of what it sees, or all when there are fewer, and then a keepalive |
| EventStream.WireTexts | internal/api/server.go:1441-1461 | the bytes of a frame and of a keepalive |
| EventStream.ServerCursor | internal/api/server.go:1441-1453 | the cursor stands right behind what was written |
| EventStream.ServerCatchesUp | internal/api/server.go:1430-1464 | polls of the whole log write everything ahead as soon as 200 events each suffice |
| EventStream.ServerDeliversAll | internal/api/server.go:1430-1464 | the same after any earlier polls of the growing log: no event is left behind |
| EventStream.SplitIncrementally | frontend/src/api.ts:268-292 | splitting a text in two pieces, keeping the unfinished rest, finds the same frames as splitting it whole |
| EventStream.ParseSSEFrame | frontend/src/api.ts:298-312 | the field loop computes the frame's event, id and joined data |
| EventStream.ParseServerFrame | frontend/src/api.ts:298-312 | the client reads back the event name, id and data the server framed |
| EventStream.AnyFrameIsParsed | frontend/src/api.ts:298-312 | a frame of any fields is parsed to its last event name or "message", its last id and its data lines joined, and without data to nothing |
| EventStream.LinesOfJoin | frontend/src/api.ts:298-312 | joining lines and splitting them are inverse |
| EventStream.ReturnsAreDropped | frontend/src/api.ts:273 | a text sent with carriage returns is read as the one without |
| EventStream.CursorsStand | internal/api/server.go:1430 | a cursor that is no number starts at the beginning, and any number stands for itself, however large |
| EventStream.ConsumeConnection | frontend/src/api.ts:268-292 | for any chunking, the nested loops hand over and move the cursor exactly as the concatenated text does |
| EventStream.ConnectionStep | frontend/src/api.ts:247-296 | one connection, cut anywhere, hands over the next events of the log and leaves the cursor right behind them |
| EventStream.SessionDeliversLogPrefix | frontend/src/api.ts:247-296 | over any number of disconnects the handed events are a prefix of the log after the first cursor: no gap, no duplicate |
| EventStream.SessionDeliversAll | frontend/src/api.ts:247-296 | a session whose last connection arrives whole from a server that polled the whole log often enough hands over everything that lay ahead |
| RunStates.TransitionsByKind | internal/core/state.go:5-45 | the table allows exactly the moves of five kinds: work goes on, pauses for an approval, is taken up again, is given up, or breaks off |
| RunStates.TerminalExactlyWithoutExit | internal/core/state.go:5-61 | terminal statuses are exactly those without an outgoing edge |
| RunStates.TerminalIsFinal | internal/core/state.go:5-61 | no history leaves a terminal status |
| RunStates.UncertainNeverSucceeds | internal/core/state.go:5-45 | after uncertain every later status is uncertain, failed or cancelled |
| RunStates.SucceededOnlyFromReviewing | internal/core/state.go:5-45 | a history that reaches succeeded was reviewing immediately before |
| RunStates.SuccessReachable | internal/core/state.go:5-45 | success can be reached from a status exactly when it is not uncertain or a failed end |
| RunStates.WaitingIsReversible | internal/core/state.go:5-45 | every edge into waiting has its edge back, and reviewing has none |
| RunStates.RecoveryKeepsTheTable | internal/core/state.go:63-68 | recovery is a legal move from every active status and keeps success reachable exactly without side effects |
| UncertainMark.RunRow.TransitionRun | internal/store/repository.go:810-868 | the store contract: a commit needs the expected revision and a legal edge; its answer may be lost |
| UncertainMark.MarkUncertain | internal/approval/router.go:536-581 | success means the run was settled at some instant of the call; at most one version is written, never over a settled one; only a queued run is refused; giving up takes exactly seventeen store calls and eight foreign revisions; other failures are store faults |
| ApprovalProtocol.PolicyOfSurfaces | internal/approval/router.go:660-691 | the policy allows exactly harmless requests, which read or are listed calls of their own server, and the browser's, and calls only the harmless ones free of side effects |
| ApprovalProtocol.SolversNeedAuthorization | internal/approval/router.go:660-691 | neither the policy nor an installed package ever lets a solver through |
| ApprovalProtocol.PackagesAreInternal | internal/approval/router.go:697-702 | an installed package runs on the internal server only, by its one tool |
| ApprovalProtocol.EveryRunIsSafe | internal/approval/router.go:67-312 | over every interleaving each step is preceded by what it needs, runs follow the table, and every remembered prior is legal both ways |
| ApprovalProtocol.AnsweredAtMostOnce | internal/approval/router.go:67-99 | no request is answered twice, so never both accepted and declined |
| ApprovalProtocol.AcceptsAreDurable | internal/approval/router.go:141-241 | over every interleaving an accept without the user's decision, a plan that covers the screening or a finished solver job is of a harmless request, or of the browser or an installed package after its stage was marked |
| ApprovalProtocol.ParkedNeedTheUser | internal/approval/router.go:194-312 | only requests that are neither harmless nor the browser's are ever parked for the user |
| ApprovalProtocol.UnattendedGoThrough | internal/approval/router.go:194-213 | the others are never parked or declined by a rule: harmless ones are accepted as they are, the browser's after the mark while the attempt is open |
| ToolAnnotations.EveryToolIsClassified | internal/mcpserver/server.go:165-292 | every published tool has annotations, and none is annotated as destructive |
| ToolAnnotations.InternalToolsFollowTheirAnnotations | internal/mcpserver/server.go:242-292 | a published internal tool needs the user exactly when it neither only reads nor is closed to the world; of these an installed package can let through only its run |
| ToolAnnotations.EngineeringToolsFollowTheirAnnotations | internal/mcpserver/server.go:275-282 | a published engineering tool goes through exactly when it only reads, and all others are solvers |
| ToolAnnotations.OpenToolsNeedADecision | internal/approval/router.go:674-690 | over every run such an internal tool is accepted only by the user's decision on it, or as the run of an installed package after the mark; so an installation always is the user's |
| ApprovalProtocol.ParkedRequestsFollowTheUser | internal/approval/router.go:470-523 | a parked request is answered as the user decided, after the decision and after the resume of its run was asked for, and the row is never decided the other way |
| ApprovalProtocol.RestoresAreLegal | internal/approval/router.go:261-311 | no restore the router asks for is refused by the status table |
| ApprovalSteps.DecisionsAreGuarded | internal/store/repository.go:2584-2710 | a row is decided as the user chose exactly when it is pending, its run waits, its attempt is open and no collector failed; a pending one is otherwise retired |
| ApprovalSteps.MarksNeedOpenAttempts | internal/approval/router.go:181-205 | a side effect is marked only for the request in hand and while its attempt is in progress |
| ApprovalSteps.RowsNeedOpenAttempts | internal/store/repository.go:2500-2545 | a row is written only for the request in hand, while its attempt is open and its run waits or may begin to |
| ApprovalSteps.RowsCloseOnce | internal/store/repository.go:2584-2710 | a row that was decided or retired never changes again |
| ApprovalSteps.SettlingRetires | internal/store/repository.go:911-966 | when a run is over, breaks off or becomes uncertain, exactly its pending approvals are retired |
| ApprovalSteps.RunsMoveByThese | internal/approval/router.go:255-312 | what moves runs, and under which conditions: a request that waits, a decided request that resumes, other writers |
| ApprovalSteps.LoopStopsUndelivered | internal/approval/router.go:67-99 | the loop stops only after an answer that could not be delivered |
| ApprovalSteps.VerdictsAreNoted | internal/approval/router.go:141-213 | the handler accepts with the note that stands for the request, or a harmless one without, and notes nothing when it declines |
| ApprovalSteps.NotesAreAccepts | internal/approval/router.go:141-312 | what the loop notes for a request it then accepts or parks, and nothing else |
| ApprovalSteps.RulesAreForSolvers | internal/approval/router.go:141-253 | the rules for receipts, finished jobs and repeated requests concern solvers only, the plan only the screening |
| ApprovalSteps.OtherOwnersRows | internal/store/repository.go:2500-2545 | the core authorizer's rows are written under the same condition and stay pending until closed or retired |
| ApprovalWaits.WaitOfEntry | internal/approval/router.go:261-311 | an entry stems from a wait exactly when the logged and read revisions say so, down to the row that began it |
| ApprovalWaits.CopiesOfTheWait | internal/approval/router.go:264-281 | the copied prior is that of the wait that was read exactly when the source row is of that wait |
| ApprovalWaits.CopyGuard | internal/approval/router.go:264-281 | while all entries are exact, that is so exactly when the source row was written during that wait or right before |
| ApprovalWaits.ParkGuard | internal/approval/router.go:282-311 | parking keeps all entries exact exactly when the row was written at the revision that was read and the source passed that check |
| ApprovalWaits.RestoresReturnToTheWait | internal/approval/router.go:497-511 | a restore puts back the status before the wait of its entry; it is the right one exactly when that is the present wait by the rule, or an earlier one from the same status |
| ApprovalWaits.ReleasedExactly | internal/store/repository.go:972-1037 | a decided request releases its waiting run exactly when no approval is pending; the run is blocked exactly when the core authorizer has a pending row or a row of the router's can be decided, is being parked, or is an orphan |
| ApprovalWaits.OrphanBlocksRelease | internal/approval/router.go:282-303 | whatever the loop and the users do, an orphan stays pending and its run is not released |
| ApprovalScenarios.CompleteExchange | internal/approval/router.go:470-523 | from any idle state, asking, parking, deciding and answering ends with the user's answer and nothing in memory, and releases the run exactly when no other approval was pending |
| ApprovalStages.CheckedRestoresAreRight | internal/store/repository.go:972-1037 | over every schedule in which priors are copied and runs resumed only for attempts in progress and writers change stages only after the attempts that asked have ended, each restore puts its run back into the status the present wait began from |
| ApprovalStages.StagesInvariant | internal/approval/router.go:261-311 | in all those schedules the prior of every parked request of an open attempt, and the one in the handler's hands, name the stage their run is in or waits from, unless it was taken out of its stage |
| StaleRestores.PriorsCanBeStale | internal/approval/router.go:264-281 | without the check at the copy: from any idle state, with writers that change stages as the engine does, a run that waits, is interrupted and resumed elsewhere can be put back from the new stage into the old one |
| StaleRestores.StaleExample | internal/approval/router.go:264-281 | one such run from the start: it waits while collecting and ends up planning |
| StaleRestores.ResumesCanBeLate | internal/approval/router.go:497-511 | without the check at the resume: with such writers, the second store call of a decision can end the wait of a later stage and put the run back into the first |
| StaleRestores.PriorsCanBeLate | internal/approval/router.go:264-303 | without the proviso on writers: a row written after the wait that was read does the same; the schedule contains a change of stage while an attempt is open, which the engine does not make |
| ApprovalScenarios.OrphansKeepRunsWaiting | internal/approval/router.go:282-303 | after a refused request with a row, the next exchange is answered and its run keeps waiting |
| RpcCalls.CallTable.Register | internal/codex/client.go:939-947 | registers the channel unless the terminal error is set |
| RpcCalls.CallTable.RemovePending | internal/codex/client.go:969-975 | removes only the caller's own channel |
| RpcCalls.CallTable.Take | internal/codex/client.go:1072-1079 | takes the channel of an id out of the table |
| RpcCalls.CallTable.Terminate | internal/codex/client.go:1292-1315 | sets the terminal error and empties the table |
| RpcCalls.FollowSchedule | internal/codex/client.go:931-975 | over any schedule the shared table object holds what the interleaving says |
| RpcCalls.OneResponsePerChannel | internal/codex/client.go:1072-1086 | a channel is sent to at most once over a whole run |
| RpcCalls.ReaderNeverBlocks | internal/codex/client.go:1292-1320 | every send of the reader finds room, so it can always go on |
| RpcCalls.AnswersReachTheirCaller | internal/codex/client.go:1072-1086 | over every schedule a caller receives exactly the result or error of a message that was read while its own entry was in the table, or the terminal error of the end that was read |
| RpcCalls.FailuresHaveTheirCause | internal/codex/client.go:931-967 | a call fails only by its cancellation, its failing write or the end of the connection, with that error |
| RpcCalls.ReadOnce | internal/codex/client.go:1072-1079 | at most one message is ever read for a channel |
| RpcCalls.CallsBegin | internal/codex/client.go:931-952 | until the end a new call is registered under the next id and waits |
| RpcCalls.WaitingCallIsAnswered | internal/codex/client.go:953-958 | from every reachable state the next message with its id ends a waiting call with that message's result or error |
| RpcCalls.WaitingCallIsEnded | internal/codex/client.go:1292-1315 | likewise the end of the connection, with the terminal error |
| RpcCalls.WaitingCallIsWithdrawn | internal/codex/client.go:959-975 | a waiting call can be withdrawn and leaves no entry |
| RpcCalls.CallsAreSeparate | internal/codex/client.go:931-947 | different calls have different ids and channels |
| RpcCalls.NothingRegistersAfterFinish | internal/codex/client.go:1292-1320 | after the end the table is empty and a late call gets the terminal error |
| RpcCalls.FinishIsFinal | internal/codex/client.go:1292-1320 | no later step changes the terminal error or the empty table |
| RpcCalls.WaitingCallsAreWoken | internal/codex/client.go:953-966 | a waiting call has its response, will be found by the reader, or sees the end |
| RpcCalls.FinishedCallsLeaveNothing | internal/codex/client.go:949-975 | a call that has returned has no entry in the table |
| Turns.TurnState.AddMessage | internal/codex/client.go:1149-1172 | appends the message and recomputes the text |
| Turns.TurnState.Complete | internal/codex/client.go:1185-1197 | records the completion and closes done unless it was closed |
| Turns.TurnTable.GetTurnState | internal/codex/client.go:1206-1218 | one object per turn for good, created once, gaining only a missing thread |
| Turns.TurnTable.Record | internal/codex/client.go:1100-1199 | each notification changes exactly its turn |
| Turns.KnownTurns | internal/codex/client.go:1100-1218 | a turn exists exactly when a valid notification named it |
| Turns.TurnMessages | internal/codex/client.go:1136-1172 | for every history all messages are kept in order, and the text is the last final answer or else the joined unphased ones |
| Turns.TurnText | internal/codex/client.go:1149-1172 | a caller reads the last final answer, or without one the unphased messages, one per line |
| Turns.DoneExactlyWhenCompleted | internal/codex/client.go:1174-1198 | done is closed once, and exactly when a completion arrived |
| Turns.LastCompletion | internal/codex/client.go:1185-1193 | status and error are those of the last completion |
| Turns.EventLoop | internal/codex/client.go:1266-1290 | the queue loop, for any outcome of its selects |
| Turns.EmittedIsPrefix | internal/codex/client.go:1253-1290 | emitted, queued and waiting events are the accepted ones in order; a loop that returned emitted all it took |
| Turns.ReturnsOnlyAtTheEnd | internal/codex/client.go:1266-1290 | the loop ends only after done was closed and seen |
| Turns.QueueDrains | internal/codex/client.go:1266-1290 | a consumer that keeps reading gets the whole queue, after which the loop can return |
| Turns.DeliveriesArrive | internal/codex/client.go:1253-1290 | events that are sent, taken and read one by one all arrive, in order |
| Elicitation.ElicitationState.Track | internal/codex/mcp_elicitation.go:121-136 | a known call is kept when repeated alike and dropped when repeated differently |
| Elicitation.ElicitationState.UniqueUnboundCall | internal/codex/mcp_elicitation.go:138-169 | binds exactly when one call fits, it is unbound and the key is unused; otherwise changes nothing |
| Elicitation.ElicitationState.RemoveCall | internal/codex/mcp_elicitation.go:171-186 | removes the call and its binding |
| Elicitation.ElicitationState.RemoveTurn | internal/codex/mcp_elicitation.go:188-196 | removes exactly the calls of the turn and their bindings |
| Elicitation.ElicitationState.RemoveRequest | internal/codex/mcp_elicitation.go:198-206 | removes the bound call when the thread agrees |
| Elicitation.Handle | internal/codex/mcp_elicitation.go:44-119 | each message changes the binder as the history says, and a request is bound exactly when it may be |
| Elicitation.HandleAll | internal/codex/mcp_elicitation.go:44-119 | a session of messages leaves the binder at the value of its history |
| Elicitation.RequestKeysInjective | internal/codex/mcp_elicitation.go:459-482 | different request ids have different keys, none of them empty |
| Elicitation.IntegerIds | internal/codex/mcp_elicitation.go:459-482 | the integers of 64 bits are request ids and no others |
| Elicitation.NameIds | internal/codex/mcp_elicitation.go:459-482 | strings in any spelling are ids except the empty one, and an id means what was read |
| Elicitation.CallsAfter | internal/codex/mcp_elicitation.go:44-213 | which calls are in the book after one more message, in both directions, without naming the operations |
| Elicitation.CallsStay | internal/codex/mcp_elicitation.go:44-213 | a call stays what it was announced as, and its key changes only from none to that of a request about it |
| Elicitation.BijectionAlways | internal/codex/mcp_elicitation.go:121-213 | after every history bound calls and keys name each other one to one |
| Elicitation.BoundExactlyWhenUnambiguous | internal/codex/mcp_elicitation.go:138-169 | a request is bound exactly when one call of its turn and server has the same JSON arguments, that call is unbound and the id is unused |
| Elicitation.BindingsAreKept | internal/codex/mcp_elicitation.go:121-213 | a bound call keeps its request until it is removed |
| Elicitation.RequestsAreNotShared | internal/codex/mcp_elicitation.go:121-213 | two live calls never share a request |
| CasStore.ObjectsHashToTheirNames | internal/cas/store.go:81-184 | over every run with crashes each object file hashes to its name |
| CasStore.ReadsNeverMismatch | internal/cas/store.go:149-168 | a verified read of an existing object returns its content |
| CasStore.CommittedDataIsReadBack | internal/cas/store.go:81-184 | reading any hash gives exactly what was committed last under it, and is not found when it was removed since or never committed |
| CasStore.StoredWasCommitted | internal/cas/store.go:81-134 | a successful put noted its own commit at a known position, and no put reports a collision |
| CasStore.StoredIsReadBack | internal/cas/store.go:81-168 | once a put has succeeded, over all later steps and crashes its data is read back until a removal later than its own commit, given no collision among the data put |
| CasStore.PutSucceeds | internal/cas/store.go:81-134 | in every state a put that meets no fault ends with its data stored under its hash, its commit noted and its temporary file gone |
| CasStore.FaultsCleanUp | internal/cas/store.go:89-103 | a put that meets a fault before its rename fails and takes its temporary file with it |
| CasStore.CollisionsAreReported | internal/cas/store.go:116-120 | an object of another size under the same hash makes the put fail with a collision and is left alone |
| CasStore.DeletionRemoves | internal/cas/store.go:170-184 | a deletion removes the addressed object, notes it, and touches nothing else |
| CasStore.ObjectsChangeByPutsAndDeletions | internal/cas/store.go:81-184 | objects come only by a put moving in its own data under its own hash, and go only by deletions |
| CasStore.CrashesKeepObjects | internal/cas/store.go:81-134 | a crash takes every put and leaves every object alone |
| CasReconcile.CasTree.Scan | internal/cas/store.go:199-254 | enumerates exactly the orphans, or reports an unexpected entry or a failed scan, each only where there is one |
| CasReconcile.CasTree.RemoveAll | internal/cas/store.go:268-312 | removes exactly the candidates whose removal works and counts them |
| CasReconcile.CasTree.Reconcile | internal/cas/store.go:190-313 | nothing is removed on an unexpected entry or hash; otherwise exactly the removable orphans are, with matching counts; success exactly without fault |
| CasReconcile.RegisteredObjectsSurvive | internal/cas/store.go:186-254 | in every outcome registered objects stay with their content and nothing new appears |
| CasReconcile.SuccessLeavesRegistered | internal/cas/store.go:186-313 | after success the objects are the old ones that are registered, and tmp is empty |
| CasReconcile.SuccessCounts | internal/cas/store.go:299-312 | the counts of a success are the numbers of unregistered objects and temporary files |
| WorkerPool.WorkerCount | internal/cas/store.go:258-267 | one worker per processor, but at least one, at most sixteen and never more than candidates |
| WorkerPool.ReportsNeverBlock | internal/cas/store.go:268-290 | the outcome channel always has room for a worker's report |
| WorkerPool.NeverStuck | internal/cas/store.go:268-297 | with a worker some step is possible until the outcomes are collected |
| WorkerPool.EveryStepCounts | internal/cas/store.go:268-297 | every step uses up one of a number fixed at the start, so the pool terminates |
| WorkerPool.OneOutcomeEach | internal/cas/store.go:268-312 | every candidate has exactly one outcome |
| WorkerPool.RemovedExactlyAsReported | internal/cas/store.go:268-312 | at the end exactly the candidates reported without failure are gone |
| CasReconcile.PoolRemovesAll | internal/cas/store.go:268-312 | after any schedule of the pool, tree, counts and error are those of RemoveAll |
| RunProgress.RetainRunEventHistory | frontend/src/run-progress.ts:36-64 | the loops compute the window and the preserved markers |
| RunProgress.WindowIsLimited | frontend/src/run-progress.ts:48 | the window holds at least one event, and otherwise as many as the limit says |
| RunProgress.LatestStartedStage | frontend/src/run-progress.ts:66-77 | the stage of the run's marker with the greatest sequence, or none exactly without markers |
| RunProgress.RetainedIsBounded | frontend/src/run-progress.ts:33-64 | newest first, without duplicates, from the history, with the whole window, at most four more events per run in it |
| RunProgress.RetainedAnswers | frontend/src/run-progress.ts:33-64 | one arrival keeps the newest marker of a run in the window and loses all of one outside |
| RunProgress.WindowOfFull | frontend/src/run-progress.ts:33-64 | the window of the bounded history is always that of the full one |
| RunProgress.BoundedAnswersLikeFull | frontend/src/run-progress.ts:33-77 | over all arrivals the bounded history answers like the full one exactly when there is nothing to answer or, after every arrival since its newest marker, one of the last arrivals was the run's |
| RunProgress.LosingTheMarker | frontend/src/run-progress.ts:33-77 | a concrete history whose answer is lost |
| RunProgress.SameProgress | frontend/src/run-progress.ts:79-120 | such runs show the same progress from both histories |
| RunProgress.BarStates | frontend/src/run-progress.ts:104-120 | which stages are complete, need attention, are active or wait, in both directions |
| RunProgress.StagesShown | frontend/src/run-progress.ts:79-102 | a run shows its own stage first, planning shows the plan, and a paused or broken run the stage it started last |
| RunProgress.WorkGoesForward | frontend/src/run-progress.ts:79-102 | along the status table a working run shows the same or the next stage, or planning again |
| SidecarTree.DecodeInvertsEncode | internal/buildinfo/fingerprint.go:77-117 | the decoder returns the encoded files, for any list of files |
| SidecarTree.DecodeAcceptsOnlyEncodings | internal/buildinfo/fingerprint.go:77-117 | the decoder accepts exactly the encodings |
| SidecarTree.WriteFile | internal/buildinfo/fingerprint.go:84-115 | one file is written exactly when it is regular and read in full |
| SidecarTree.HashTree | internal/buildinfo/fingerprint.go:77-117 | the hash of the encoding of the three files, exactly when all are hashable |
| SidecarTree.TreeLayout | internal/buildinfo/fingerprint.go:77-117 | the hashed bytes in full: domain, and for each of the three files the length of its name, the name, its size and content |
| SidecarTree.BigEndianBytes | internal/buildinfo/fingerprint.go:96-106 | lengths are written most significant byte first |
| SidecarTree.TreesIdentified | internal/buildinfo/fingerprint.go:77-117 | equal encodings, or equal digests that are no collision, mean equal contents of all three files |
| CoreAuthorizer.SuccessMeansAllApproved | internal/approval/core_authorizer.go:39-116 | success means 1 to 64 cells, each with an approved row of its own item, arguments and digest |
| CoreAuthorizer.CellsFollowTheVisibleApproval | internal/approval/core_authorizer.go:102-115 | in every reachable state a row of some cell means approved rows for all cells before it |
| CoreAuthorizer.DenialLeavesOnlyTheVisibleCell | internal/approval/core_authorizer.go:92-144 | a denied visible row is the only row of its authorization, also when the restore after the denial fails |
| CoreAuthorizer.ReportedDenialIsDurable | internal/approval/core_authorizer.go:92-116 | an authorization that reports a denial has a denied visible row and no other |
| CoreAuthorizer.DecisionsSentOnce | internal/approval/core_authorizer.go:118-144 | each decision channel takes at most one value, so sending never blocks |
| CoreAuthorizer.ItemsAreDistinct | internal/approval/core_authorizer.go:54-68 | the rows of one authorization have distinct item ids |
| CoreAuthorizer.ItemIdsCount | internal/approval/core_authorizer.go:54-62 | the items of a matrix are numbered from one, in three digits |
| CoreAuthorizer.MatricesAreChecked | internal/approval/core_authorizer.go:44-53 | a matrix is refused exactly when it is empty, has more than 64 cells or a cell that is no JSON |
| CoreAuthorizer.AuthorizationAsks | internal/approval/core_authorizer.go:70-91 | an authorization of a collecting run puts up one row, for cell zero, and its run waits |
| CoreAuthorizer.DecisionArrives | internal/approval/core_authorizer.go:118-144 | the user's decision closes the visible row and reaches the authorization: it goes on after an approval, reports a denial, or the failed restore |
| CoreAuthorizer.LateDecisionsAreForgotten | internal/approval/core_authorizer.go:118-131 | a decision that comes too late retires a pending row, forgets the entry and tells nobody |
| CoreAuthorizer.ExpansionSucceeds | internal/approval/core_authorizer.go:102-116 | after an acceptance all remaining cells get their approved rows in order and the authorization succeeds |

## Left out

- UTF-8: texts are sequences of code points; invalid bytes, byte order marks and the replacement of unpaired surrogates in Go strings are not modelled beyond the reader's own escapes.
- JSON nesting deeper than 10000, which Go's decoder refuses, and floating-point decoding, which the canonical string avoids by keeping number texts.
- Request ids of 64 bits are unbounded numbers in RpcCalls: fewer than 2^64 calls per process.
- Fields of elicitation messages other than thread, turn, server, tool parameters and id (mode, schema, aliases, the augmented copy) are checks of their own and not modelled.
- The SQLite store, its transactions and its schema: only the contracts of the calls named above.
- ApprovalProtocol: the verdicts of request decoding, upload paths, shell-command classes, the approved plan and the tool grant are choices of the schedule, since they are string and row checks without effect on the protocol.
- ApprovalProtocol: marking a run uncertain after a lost response is one of the run's other legal writers; the marking itself is UncertainMark.
- ApprovalProtocol and CoreAuthorizer are modelled on values, not as objects: their maps change only inside single critical sections, which are the steps.
- ApprovalWaits: other writers may end a wait along the status table even while approvals are pending, and stage attempts may end at any time, which is more than the engine does; the statements over all schedules hold against that, and StaleRestores.PriorsCanBeLate, an existence, is an input of such writers only.
- ApprovalProtocol: whether a collector has failed and whether any attempt of the run is in progress, which the decision and the resume ask too, are choices of the schedule; of the core authorizer's rows only their number per run is kept, and its own resume is one of the run's other writers.
- ApprovalProtocol: a change of the revision cycle raises a run's revision without a transition; it happens outside waits and is not modelled.
- CoreAuthorizer: restoring the run is one of the run's other legal writers, so the model says nothing about the status after a decision.
- CasStore: the file system's rename and removal are atomic steps, prefix directories exist, and permissions and read-only stores are not modelled.
- CasReconcile: RemoveAll removes candidates one after another; PoolRemovesAll says that the workers come to the same.
- EventStream: parsing the JSON of an event and failing callbacks are left out, and the log only grows.
- Turns: token usage, interrupts and steering. Events still in the input channel when the loop returns may be dropped, so no delivery of every accepted event is claimed.
- RunProgress: events are numbered by numeric sequences and identified by them or an explicit id; the fall-back to creation times is not modelled.
- SidecarTree: path cleaning and symbolic-link inspection are the observations of each file.
- The controller that chooses between the two approval owners, the browser views and HTTP routing are plumbing.
