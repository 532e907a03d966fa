# LM_Pipe: the context store, its replay, and the incremental streams

LM_Pipe runs a language model as a coding agent. Two of its parts carry state whose correctness
spans whole runs, and this project models those and proves what they promise.

**The context store and its replay.** `ContextStore` keeps the history a prompt is made of. Turns
are added, cut to a budget, rewritten in place when a re-read makes them redundant or out of date,
and folded into one-line-per-turn summary spans. Every turn is handed to a turn sink when it is
recorded and to a compaction sink before it is erased. `render` lays the state out most stable
first, so that the KV cache of one turn can be reused by the next. `resume.cpp` rebuilds a store
from the event log of a run that died and lists the runs a log holds.

**The incremental streams.** A Content-Length frame decoder and the document mirror behind it; the
sidecar's line framer and its table of pending requests; the journal pipeline, in which tokens are
buffered into lines, a tail polls the file, and a reducer folds the lines into a feed; and the file
handshake by which a parent answers a question of a worker run. Each has to behave the same however
its stream is cut or its steps interleave.

## How the model is laid out

| file | module | models |
|---|---|---|
| `Sequences.dfy`, `Text.dfy`, `Lines.dfy` | `Sequences`, `Text`, `Lines` | folds over sequences; search, trimming, numerals; text cut at newlines |
| `ContextModel.dfy` | `ContextModel` | the store as a value and what each operation does to it |
| `ContextStore.dfy` | `ContextStores` | the class, updated in place, proved to do exactly that |
| `Steps.dfy` | `Steps` | each operation, field by field and record by record |
| `ContextLaws.dfy`, `Compaction.dfy`, `LiveCopies.dfy` | same names | laws over whole runs of the store |
| `Anchors.dfy` | `Anchors` | what a summary span says of the turns it stands for |
| `DeferredCollapse.dfy` | same name | the queue of collapses the agent applies at a compaction, and what it leaves |
| `Render.dfy`, `Prompt.dfy` | `Rendering`, `Prompt` | the prompt and what of it survives; what each of its messages says |
| `Resume.dfy` | `Resume` | rebuild and listing, as the loops and as a reading of the log |
| `ResumeLaws.dfy`, `ListingLaws.dfy` | same names | laws of replay, and of listing against replay |
| `OwnEvents.dfy` | `OwnEvents` | whose events a rebuild by run id is made of |
| `Frames.dfy`, `Headers.dfy`, `Mirror.dfy` | `Frames`, `Headers`, `Mirror` | the frame decoder, what it reads off a header, the document mirror |
| `Utf8.dfy`, `Client.dfy`, `Replies.dfy` | `Utf8`, `Client`, `Replies` | decoding bytes in pieces; the sidecar client; what becomes of a request |
| `Json.dfy`, `Journal.dfy` | `Json`, `Journal` | the journal's line encoding (string escaping in section 7 of RFC 8259) and its writer |
| `Tail.dfy`, `Watcher.dfy` | `Tail`, `Watcher` | reading what was appended; one offset per journal |
| `Feed.dfy`, `Rows.dfy`, `Pipeline.dfy` | `Feed`, `Rows`, `Pipeline` | the reducer and the page; what it shows of each line; tokens in, feed text out |
| `Torn.dfy`, `Watching.dfy` | `Torn`, `Watching` | parts of a journal line; watcher, snapshot and page together |
| `Visits.dfy` | `Visits` | a whole visit of a page: reconnections, slice changes, tasks |
| `AskProtocol.dfy`, `AnswerFate.dfy` | `AskProtocol`, `AnswerFate` | worker and parents as a machine of single file accesses; what becomes of an answer |

An object the sources update in place is a class whose methods are proved against functions on
values: `State()` (or `Now()`, `View()`) is the value of the object, and every method says exactly
which value it leaves. The laws are about those functions, over every input and every run.
What an operation puts into its answer -- a record, a message, a line, a row, a reply -- is stated beside
them field by field, without the function that makes it.
Sinks, sent notifications, dispatched lines and settled requests are kept as sequences, so that what
a callback was given is part of the state.

Ten promises turned out not to hold on all inputs. The code is modelled as it is, and each has its
exact condition and a run or a family of inputs that shows the failure:

- The header comment says the two rewriting passes commute (`src/context/context.hpp:438-441`).
  They do exactly when both describe one read: `PassesCommute`.
- "The collapse always leaves exactly ONE live copy -- the newest" (`src/context/context.hpp:336-338`).
  It does when the collapse runs before the record is added: `OneLiveCopy`. The agent queues it and
  applies it at a compaction, with the record among the copies (`src/loop/agent.cpp:1979-2026`).
  What is then left of a queued file is exactly its copies that carry a note -- none, one or
  many -- and the newest survives exactly when it carries one: `CopiesLeftAreTheNoted`,
  `NewestCopySurvivesExactlyWhen`. None of them is exactly those bytes, so `has_observation` does
  not find them on the third read: `NoExactCopyIsLeft`.
- "A later read of the same file ... replaces any earlier plan" (`src/loop/agent.cpp:2017-2019`).
  Over any run, the file is left without a plan that goes by other bytes exactly when the read makes
  a plan itself -- it is not answered with a reference, and 512 characters or more came back -- or
  there was no such plan before it: `PlanIsReplacedExactlyWhen`. The plans are those of the last
  reads that made one (`PlansAreTheLastMade`), and the record of any read, long or short, is left
  by the collapse exactly when no plan made by then goes by other bytes of its file, nor by its own
  bytes while it carries no note: `CopySurvivesExactlyWhen`. A short read after a long one is taken
  for stale: `ShortReadIsTakenForStale`.
- "A run that appears here can always be rebuilt" (`src/context/resume.hpp:78-80`). It can exactly
  when the first summary that is the run's own, or has no id, carries an id and a mission:
  `ListedRunRebuildsWhen`, `ListedButNotRebuilt`. And it is the row chosen that is rebuilt exactly
  when no row above it has its id or none: `ListedRowIsRebuiltExactlyWhen`, `LaterRowOpensTheFirst`.
- `observations` is what a resume gets back (`src/context/resume.hpp:73-75`). A resume names its run,
  and gives back that many, less what is counted and not replayed, plus the strays -- events past
  the run's segment without a run id, or with its own: `FilteredRebuildAgreesWithListing`,
  `FilteredListingIsExactWhen`. The last run has no strays: `ListingAgreesWithReplay`,
  `ListingIsExactWhen`.
- "Only that run's events apply" (`src/context/resume.hpp:49-51`). Events that carry no run id do
  too, a later run's among them. The whole rebuild is the one of the run's own segment exactly when
  no later event that applies would be given back, none that begins or ends an edit changes whether
  the last edit begun is open, and the last edit acknowledged there is the segment's:
  `OnlyItsOwnSegmentCountsExactlyWhen`. Where the run's own events go on after another's begin, it
  is the rebuild without the unlabelled ones exactly when none of those would be given back, none
  changes the text one of the run's results takes, and the open and the acknowledged edit are the
  same: `OnlyItsOwnEventsCountExactlyWhen`. The failing families are `LaterResultIsSplicedIn` and
  `LaterEditIsSplicedIn`, where nothing is given back and the resume is refused.
- `edit_in_flight` follows the last edit begun only. It is right exactly when an edit without its end,
  wherever it is, leaves the last one begun without its end: `OpenEditIsTheLastBegun`,
  `InFlightIsRightExactlyWhen`, `OverlappingEditIsMissed`.
- The range a `didChange` replaces reaches the end of the server's copy exactly when that copy has
  no lone carriage return and its last line no character of two UTF-16 units: `MirrorHoldsExactlyWhen`.
- "A read boundary is never semantically visible" (`extension/src/client.ts:10-12`). It is when it
  falls inside a UTF-8 sequence, and when a line that throws is not the last to say something:
  `PiecesDecodeExactlyWhen`, `CutInsideACharacterIsVisible`, `SidecarLinesArriveExactlyWhen`. In the
  frame decoder, frames with headers ended by bare newlines decode alike however they are cut
  exactly when no body holds a `\r\n\r\n`, the character after it included; one that follows a
  frame decides it as well:
  `NewlineStreamsDecodeExactlyWhen`, `NewlineFramesDependOnTheCut`.
- "`piper status` never reports a finished or dead run as asking" (`scripts/piper_worker.py:2243`).
  For a status taken at one moment that holds: `StatusReportsExactlyTheOpenAsk`. A parent reads the
  ask, then the result, then looks at the process; by then the run it reports has finished exactly
  when that run's result is there, or another run has been launched: `ReportIsOutdatedExactlyWhen`,
  `SplitReadCanReportAFinishedRun`, `LateLookCanReportAFinishedRun`. Even so it was the open ask when
  the file was read: `ReportedAsksWereOpen`.

The visualizer's page makes no promise of its own; what it shows is everything exactly under the
condition of `WatchedPageShowsTheTokensExactlyWhen`, and over whole visits under that of
`VisitShowsTheTokensExactlyWhen`. Nor is it promised that an answer to an open ask is taken: it can be
exactly when the worker is waiting and looking as it is written (`AnswerIsLostExactlyWhen`), and
there is a run in which the ask is open and the answer to it is lost (`RaceLosesTheAnswer`).

## Model

| member | source | states |
|---|---|---|
| ContextStores.ContextStore.AddTurn | src/context/context.hpp:281-309 | A recorded turn is appended, cut and marked (and counted) only when over the budget, counted, and handed to the turn sink as it was kept; nothing else changes. |
| ContextStores.ContextStore.AddUserMessage | src/context/context.hpp:464-475 | A human message joins the instructions and becomes a turn holding only its text and images. |
| ContextStores.ContextStore.RecordDeliverable | src/context/context.hpp:132-144 | Every write is counted; a path is listed once. |
| ContextStores.ContextStore.HasObservation | src/context/context.hpp:339-346 | True exactly when a recent record holds these non-empty bytes. |
| ContextStores.ContextStore.StaleCopiesOfPath | src/context/context.hpp:396-406 | The number of recent snapshots of the path whose observed bytes differ from the live ones; 0 for no path. |
| ContextStores.ContextStore.SupersedeStaleCopiesOfPath | src/context/context.hpp:410-426 | Exactly those snapshots are repointed, in place and in order, and their number is returned. |
| ContextStores.ContextStore.SupersedeDuplicateObservation | src/context/context.hpp:428-446 | Exactly the byte-identical records are repointed and untagged, and their number is returned. |
| ContextStores.ContextStore.RewriteObservation | src/context/context.hpp:451-458 | One record's observation is replaced and untagged; out of range is refused and changes nothing. |
| ContextStores.ContextStore.CompactOldest | src/context/context.cpp:46-114 | The excess oldest turns leave for one new span, the sink sees them with the span's index and text, and the number dropped is returned. |
| ContextStores.ContextStore.FoldInto | src/context/context.cpp:97-113 | The span is pushed and the turns handed over before they are erased. |
| ContextStores.ContextStore.Summarize | src/context/context.cpp:56-96 | The loop builds the title and one anchor line per dropped turn. |
| ContextStores.ContextStore.Render | src/context/context.cpp:139-302 | The loops build system, mission, spans, turns and live state, in that order. |
| ContextStores.ContextStore.RenderSpans | src/context/context.cpp:243-254 | One user message per span, oldest first, the hint on the first when anything is stored. |
| ContextStores.ContextStore.RenderTurn | src/context/context.cpp:259-292 | A human turn is one message; any other is the call, when there is one, and what came back, when there is anything. |
| ContextStores.ContextStore.RenderLiveState | src/context/context.cpp:304-340 | The block pins the latest message, the checklist, the deliverables and the check. |
| ContextStores.ContextStore.StableMessageCount | src/context/context.hpp:565-568 | All messages but the live-state one. |
| ContextLaws.NothingIsLost | src/context/context.hpp:281-309 | Over any run: sunk turns then recent ones are the recorded turns in order, equal in every field but observation and path, as many as the counter says, one for each turn added; each sink call names the span just pushed. |
| ContextLaws.FoldMoves | src/context/context.cpp:99-109 | A trim moves turns from recent to sunk; together they are unchanged. |
| ContextLaws.ClampKeepsTheFront | src/context/context.hpp:295-299 | A cut record keeps the front of its observation and every other field, exceeds the budget by the mark at most, is not cut again where the mark fits, and is unchanged exactly when it fits or ends as the cut would. |
| ContextLaws.BooksAreKept | src/context/context.hpp:132-154 | Over any run: instructions, deliverables without repeats in order of first write, the write counter with repeats, and the count of cut observations are what the operations say. |
| ContextLaws.PassesCommute | src/context/context.hpp:410-446 | The duplicate and the stale pass give one store and one pair of counts in either order, for all stores, if and only if they describe one read. |
| ContextLaws.RepeatRewritesNothing | src/context/context.hpp:410-446 | A repeat of the stale pass rewrites nothing; of the duplicate pass too, unless its replacement is the text it looks for, and then as many again. |
| ContextLaws.NoStaleCopyIsLeft | src/context/context.hpp:396-426 | After the stale pass no stale copy remains, and every record still tagged with the path has the live bytes and was there before. |
| Steps.MarksAndLimits | src/context/context.hpp:281-299 | A new store holds its mission and nothing else and keeps 1048576 characters of an observation; the marks a cut and a note put in are these texts. |
| Steps.TurnIsKept | src/context/context.hpp:281-309 | A turn is appended with every field as given, but an observation over the budget is cut there and marked; it is counted, as cut when it is, and the sink is handed what was kept. |
| Steps.MessageIsKept | src/context/context.hpp:464-475 | A message joins the instructions and becomes a turn with that text and those images, every other field blank. |
| Steps.DuplicatesArePointed | src/context/context.hpp:428-446 | Record by record: exactly those whose observation is these non-empty bytes get the replacement and lose their path; nothing else changes. |
| Steps.StaleCopiesArePointed | src/context/context.hpp:408-426 | Record by record: exactly those of the path whose observed bytes are not the live ones get the replacement and lose their path; nothing else changes. |
| Steps.OneIsPointed | src/context/context.hpp:451-458 | One record gets the text and loses its path, or none where there is no such record. |
| Steps.ObservedUpToTheFirstNote | src/context/context.hpp:369-384 | The observed bytes end where the first line that opens as a note begins. |
| Steps.TheRestIsBooks | src/context/context.hpp:132-154 | A deliverable, a freshness mark, a checklist, a check, a budget and a noted compaction each change just their own fields. |
| ContextLaws.NotesAreNotObserved | src/context/context.hpp:369-373 | Appending a note changes none of the observed bytes, for every text: the marker cannot straddle the join. |
| ContextLaws.NotesDoNotMakeStale | src/context/context.hpp:392-406 | So noting a stored copy or the live text leaves every stale count as it was. |
| Compaction.TrimsCompose | src/context/context.cpp:46-114 | Trimming to m and then to k leaves the recent turns, the sunk turns and the anchor lines of one trim to k. |
| Compaction.OneByOneIsOneTrim | src/loop/agent.cpp:2536-2541 | The budget loop, dropping one turn at a time, keeps what one trim keeps. |
| Compaction.AnchorLineShape | src/context/context.cpp:60-96 | One turn's anchor is one line and bounded, but for a tool name that is spelled out. |
| Compaction.SpanIsOneLinePerTurn | src/context/context.cpp:56-96 | A span has drop + 1 lines if and only if no tool name it spells out holds a newline. |
| Compaction.AnchorsAreBounded | src/context/context.cpp:60-96 | The anchor lines' length is bounded by the turn count and the tool names. |
| Compaction.SpanIsBounded | src/context/context.cpp:56-97 | The whole span's length, title included, is bounded by its turn count, its tool names and the digits of the numbers in its title, whatever was observed. |
| Anchors.SpanSummarizes | src/context/context.cpp:54-96 | A span's title counts the turns and gives the first and the last event number, and below it one anchor a turn, in order, says what was told, what was said, or what was called, that it FAILED exactly when it was an error, and the first line of the text, whole up to 400, 160, 80 or 200 characters, else so many and three dots. |
| Anchors.LinesTell | src/context/context.cpp:54-96 | So, when no tool name spelled out holds a newline, the i-th line below the title is that of the i-th dropped turn, and there is no other. |
| Anchors.TrimSays | src/context/context.cpp:46-114 | A trim keeps the newest turns, adds one span that summarizes the others, hands those turns, that span and its place to the sink, and is counted when it is to be; with no excess nothing happens. |
| LiveCopies.OneLiveCopy | src/context/context.hpp:325-346 | When each read collapses before it records: through any reads and trims and for every budget at most one copy of an observation within it is recent, and has_observation is true exactly while it has been neither trimmed nor superseded as stale. |
| LiveCopies.HeldIsTheLastRead | src/context/context.hpp:336-338 | The copy that is live is the newest. |
| LiveCopies.CollapsingLateLeavesNoCopy | src/loop/agent.cpp:2038-2058 | One step: collapsing after the record is added leaves no copy; before, it leaves one. |
| DeferredCollapse.CollapseQueue.Enqueue | src/loop/agent.cpp:2017-2026 | The loop leaves one entry for the path, the new one, last. |
| DeferredCollapse.CollapseQueue.ApplyPending | src/loop/agent.cpp:2029-2058 | Every entry's two passes are made, in order, and the queue is emptied. |
| DeferredCollapse.SurvivesExactlyWhen | src/loop/agent.cpp:2038-2058 | A snapshot is left as it was if and only if no queued entry has its bytes, or its file with other bytes. |
| DeferredCollapse.CopiesLeftAreTheNoted | src/loop/agent.cpp:2514-2541 | After any run, a compaction leaves of a queued file exactly its kept copies that hold the bytes last queued and carry a note, and no other copy. |
| DeferredCollapse.NewestCopySurvivesExactlyWhen | src/loop/agent.cpp:1973-2027 | The record of the read that queued the collapse survives it if and only if the read repeated an earlier one or a stale copy was in the prompt; a first read has neither. |
| DeferredCollapse.CopySurvivesExactlyWhen | src/loop/agent.cpp:2010-2058 | The record of any read of a file that is recorded, long or short, after any run and any later turns, survives the next collapse if and only if no plan then queued goes by other bytes of its file, nor by its own bytes when it carries no note. |
| DeferredCollapse.PlanIsReplacedExactlyWhen | src/loop/agent.cpp:2010-2026 | After a read no plan for its file goes by other bytes if and only if the read made a plan or none did before; the plan it makes is then the file's only one, and a read that makes none leaves the queue as it was. |
| DeferredCollapse.PlansAreTheLastMade | src/loop/agent.cpp:2017-2035 | After any run the queue holds, file by file, exactly the plans of the last reads that made one since the last compaction. |
| DeferredCollapse.ShortReadIsTakenForStale | src/loop/agent.cpp:2010-2026 | The failing family: a short read after a long one with other bytes leaves the old plan, by which the newest copy is lost at the compaction. |
| DeferredCollapse.NoExactCopyIsLeft | src/context/context.hpp:336-346 | After the queue is applied to any store, has_observation is false of the bytes of every plan, as long as no pointer text is those bytes. |
| DeferredCollapse.ReadSays | src/loop/agent.cpp:1984-2026 | What a read records: the reference, of no file, exactly when it repeats 512 or more characters the prompt holds with no stale copy; else its bytes and the notes due, under its path; and a plan with both pointer texts exactly when what came back, the first note with it, has 512 or more. |
| DeferredCollapse.PlanSays | src/loop/agent.cpp:2038-2058 | One plan applied, record by record: the same bytes become the pointer to the same copy, other bytes of the file the pointer to the newer one, and nothing else changes. |
| DeferredCollapse.CompactionCollapsesFirst | src/loop/agent.cpp:2514-2541 | A compaction applies every plan before it trims: the sink is handed the records as the plans left them, and no plan is left. |
| Rendering.StablePrefixSurvives | src/context/context.hpp:560-568 | After any turns and live-state updates the old prompt up to stable_message_count is a prefix of the new one, and the boundary never moves back. |
| Rendering.OldSpansSurvive | src/context/context.cpp:194-196 | After anything, compaction and rewrites included, the system message, the mission and the spans rendered before are still the prompt's first messages. |
| Rendering.LatestAskIsPinned | src/context/context.cpp:306-315 | Whatever follows it, trims and rewrites included, the latest instruction is in every later prompt word for word, at the head of the last message. |
| Rendering.RewritingBreaksThePrefix | src/context/context.hpp:408-458 | Whatever records become pointers: the old prefix is lost when what a turn shows is changed, and kept when it is not and no turn that showed nothing shows the pointer. |
| Rendering.PassBreaksThePrefix | src/context/context.hpp:410-446 | For any pass that rewrites the records of a kind, when they all show something: the old prefix survives if and only if each shows the new text already. |
| Rendering.CollapseBreaksThePrefix | src/context/context.hpp:428-446 | A collapse of duplicates keeps the old prefix if and only if it changes no observation that is shown. |
| Rendering.RepointingBreaksThePrefix | src/context/context.hpp:410-426 | So does the stale pass over copies that are not empty; where one is, a prefix that survives still means that nothing shown was changed. |
| Rendering.RewriteBreaksThePrefix | src/context/context.hpp:451-458 | Rewriting an observation that is shown keeps the prefix if and only if the text is the same. |
| Prompt.EveryTurnIsShown | src/context/context.cpp:259-292 | After the first 2 + |spans| messages, turn by turn and in place: a human turn is one user message with its text and images; any other is one assistant message, text for content and call for call, and then one tool response with the observation and images, each left out when empty. |
| Prompt.NothingElseIsShown | src/context/context.cpp:217-302 | There is no other message: before the turns the system text, the mission and each span, the first with the hint when anything is stored; after them the live state, if any. |
| Prompt.LiveStateStarts | src/context/context.cpp:304-316 | With nothing else set the live state is the latest message under its heading, or nothing when there is only the mission. |
| Prompt.ChecklistIsListed | src/context/context.cpp:317-322 | One more item is one more line, `[x]` when done and `[ ]` when not, under one heading. |
| Prompt.DeliverablesAreListed | src/context/context.cpp:323-328 | After the checklist, one more deliverable is one more line, under one heading. |
| Prompt.CheckIsReported | src/context/context.cpp:329-339 | Last the check: PASS or FAIL when it ran, as it passed or not, COULD NOT RUN when it did not, and its command. |
| Prompt.SystemTextStarts | src/context/context.cpp:139-172 | First the level of reasoning, then who speaks, in what mode, and the guidance. |
| Prompt.EverySectionInItsPlace | src/context/context.cpp:173-240 | Each later section stands behind all those before it and says what its field does: the workspace, what is stored when both counts allow, the conventions, the catalogue, each loaded skill, the notes. |
| Resume.FindBegin | src/context/resume.cpp:82-95 | The first matching run_begin, or without a filter the last. |
| Resume.ReconstructContext | src/context/resume.cpp:79-182 | The two loops compute the declarative reading of the log, error cases included. |
| Resume.ReplayEvent | src/context/resume.cpp:121-176 | One event in scope takes store, open edit, waiting text and last acknowledged edit one step on. |
| Resume.ListRuns | src/context/resume.cpp:192-243 | The loop computes the listing, each run_begin with what followed it. |
| Resume.ContinueRun | src/context/resume.cpp:208-241 | What one event changes of its run's summary: how it ended, its iterations, or one more observation. |
| Text.AtoiReadsDecimal | src/context/resume.cpp:229-230 | The iteration count read is the one written. |
| ResumeLaws.ReplayIsExact | src/context/resume.cpp:108-177 | The rebuilt store holds one record per tool result and spoken steer in scope, at its place in log order and saying what the event says, field by field: tool, summary or the sentence for none, error, number and waiting text; the instructions, the deliverables without repeats and the writes are those of the log. |
| ResumeLaws.RebuildSays | src/context/resume.cpp:13-22 | Beside the store a rebuild says, each off its own field of the run_begin, where and what ran, with what model, protocol and tools; it is to be had exactly when there is a mission and an id; and it gives the reason. |
| ResumeLaws.FieldIsTheFirst | src/context/resume.cpp:34-41 | A field's value is that of the first with its key, and empty without one. |
| ResumeLaws.WaitingTextIsTheLast | src/context/resume.cpp:145-159 | A tool result carries the last turn_text, unless an earlier result has taken it. |
| ResumeLaws.NoTextNothingWaits | src/context/resume.cpp:113-159 | Without a turn_text nothing is carried. |
| ResumeLaws.LastAckedIsTheLastEnd | src/context/resume.cpp:125-129 | The edit acknowledged last is that of the last edit_end in scope with an id. |
| ResumeLaws.NothingAcknowledged | src/context/resume.cpp:14-22 | Without one it stays the edit the run_begin names. |
| ResumeLaws.ScopeIsASuffix | src/context/resume.cpp:114-120 | In a log in order, the scope is what follows the run_begin less other runs' events. |
| ResumeLaws.OnlyOwnEventsMatter | src/context/resume.cpp:24-30 | With a filter, the rebuild is a function of the run's own and unlabelled events alone. |
| ResumeLaws.DeletingForeignEvents | src/context/resume.cpp:79-120 | Deleting events that carry another run's id leaves the rebuild as it was. |
| ResumeLaws.OpenEditIsTheLastBegun | src/context/resume.cpp:121-133 | The edit tracked as open is the last begun while its end is missing. |
| ResumeLaws.InFlightMeansLastBegunIsOpen | src/context/resume.cpp:178-178 | For every log: an edit is in flight if and only if the last begun has an id and no end. |
| ResumeLaws.InFlightIsRightExactlyWhen | src/context/resume.cpp:121-133 | The flag says whether some edit never ended if and only if an edit without its end leaves the last one begun without its end. |
| ResumeLaws.InFlightMeansSomeEditIsOpen | src/context/resume.cpp:121-133 | When no edit is begun while another has no end yet and all have ids: in flight if and only if some edit never ended. |
| ResumeLaws.OverlappingEditIsMissed | src/context/resume.cpp:79-181 | Without that guard a log of a run with an open edit rebuilds as if nothing were in flight. |
| ListingLaws.ListingSplits | src/context/resume.cpp:192-243 | The listing of two logs end to end, the second starting with a run, is the two listings end to end. |
| ListingLaws.LastRunEndWins | src/context/resume.cpp:209-233 | A run is finished if and only if a run_end follows its begin, and the last one, not the first, says why, after how many iterations and whether it completed. |
| ListingLaws.EveryRunHasItsRow | src/context/resume.cpp:194-205 | Every run_begin has one row, as many down as there are run_begins before it, with its id, mission, workspace, model and time; there are no others. |
| ListingLaws.EveryRowCounts | src/context/resume.cpp:206-243 | Every row counts the tool results, steers, writes and checklists of its segment and says how the run ended as its last run_end does, or nothing without one. |
| ListingLaws.ListedRunRebuildsWhen | src/context/resume.hpp:78-81 | A listed run rebuilds if and only if the first summary that is its own or has no id carries an id and a mission. |
| ListingLaws.ListedButNotRebuilt | src/context/resume.hpp:78-81 | A listed run that no rebuild opens. |
| ListingLaws.ListingAgreesWithReplay | src/context/resume.cpp:234-241 | An unfiltered rebuild is the last run listed: its id, its mission, and its observations less exactly those that are counted but not replayed. |
| ListingLaws.ListingIsExactWhen | src/context/resume.cpp:234-241 | At most as much comes back as is listed, and as much if and only if every observation of the last run is one a rebuild restores. |
| ListingLaws.FilteredRebuildAgreesWithListing | src/context/resume.cpp:79-120 | A rebuild by run id has the listed run's id and mission, and what it gives back with what of the run's segment is not replayed is the observations listed and the strays from after it. |
| ListingLaws.FilteredListingIsExactWhen | src/context/resume.hpp:73-75 | As much comes back as is listed if and only if as much strays in as is not replayed. |
| ListingLaws.ListedRowIsRebuiltExactlyWhen | src/context/resume.hpp:78-81 | Of the rows under one id, a rebuild is of the first that has the id or none, with its mission; so it is of the row at k if and only if no row above it is such a row. |
| ListingLaws.LaterRowOpensTheFirst | src/surface/sidecar.cpp:1406-1410 | The failing family: two runs under one id, and the later row opens the first run's mission. |
| OwnEvents.StoreWithoutExactlyWhen | src/context/resume.cpp:114-165 | Leaving out some of the later events of any scope leaves the store if and only if none of them is given back and every result that stays takes the same text. |
| OwnEvents.AckedWithoutExactlyWhen | src/context/resume.cpp:126-130 | It leaves the acknowledged edit if and only if the last acknowledgement stays or repeats the one that then is last. |
| OwnEvents.OpenEditAcross | src/context/resume.cpp:121-133 | The open edit of a scope and what comes after it is the latter's when that begins one, and else the former's unless it is ended there. |
| OwnEvents.OnlyItsOwnSegmentCountsExactlyWhen | src/context/resume.hpp:49-53 | The whole rebuild is that of the log cut where the next run begins if and only if no later event is given back, later edits leave whether the last begun is open, and the last edit acknowledged later is the segment's; the store alone if and only if the first of these holds. |
| OwnEvents.OnlyItsOwnEventsCountExactlyWhen | src/context/resume.hpp:49-53 | The whole rebuild is that of the log without the later events that do not carry the run's id if and only if no unlabelled one is given back, none changes the text an own result takes, and neither the open nor the acknowledged edit is another. |
| OwnEvents.LaterResultIsSplicedIn | src/context/resume.cpp:114-120 | A family that fails it: a run listed with nothing to resume to is given a later run's unlabelled result. |
| OwnEvents.LaterEditIsSplicedIn | src/context/resume.cpp:121-133 | Another: an unlabelled edit of a later run leaves the store and sets the flag that refuses a resume, or the acknowledged edit. |
| ListingLaws.RunIsSomewhere | src/context/resume.cpp:82-95 | Every run a filtered rebuild opens has its begin and segment in the log, which is what the above are about. |
| Frames.LspReader.DrainFrames | scripts/warm_lsp_mcp.py:553-579 | The loop puts out the messages decoding the buffer gives, passes over what is not JSON, leaves in the buffer what decoding leaves, and ends the way it does, a body that raises included. |
| Frames.LspReader.Receive | scripts/warm_lsp_mcp.py:543-547 | One read appends to the buffer and drains it; after an exception nothing more is read. |
| Frames.EveryChunkingDecodes | scripts/warm_lsp_mcp.py:553-579 | At every point of every chunking the messages among the first frames are out in order and the buffer is exactly what has come of the next; once a body has raised, what came before it is out and nothing more. |
| Frames.GoodIsWalkable | scripts/warm_lsp_mcp.py:555-574 | Streams of frames whose header block states the length and ends at the first blank line are such streams, whatever the bodies hold. |
| Frames.NewlinesAreWalkable | scripts/warm_lsp_mcp.py:557-561 | So are streams of frames ended by bare newlines, as long as no `\r\n\r\n` is anywhere in them. |
| Frames.DecodingInvertsEncoding | scripts/warm_lsp_mcp.py:518-579 | Once the stream is in, every message is out and the buffer is empty. |
| Frames.SendFrameIsGood | scripts/warm_lsp_mcp.py:522-525 | The header _send writes states the body's length and ends at the first blank line, for every body. |
| Frames.SentBodiesArrive | scripts/warm_lsp_mcp.py:518-579 | Any bodies, blank lines included, sent as _send sends them and read in any pieces, are put out: the messages among them, all when all are. |
| Frames.NewlineStreamsDecodeExactlyWhen | scripts/warm_lsp_mcp.py:555-561 | Frames with headers of any number of lines, without carriage returns and ended by bare newlines, decode alike under every chunking if and only if no body with the character after it holds a `\r\n\r\n`; where no header starts with a newline, if and only if no body does. |
| Frames.NewlineFramesDependOnTheCut | scripts/warm_lsp_mcp.py:555-561 | Any such frame is put out when read before the next `\r\n\r\n`, and never when both come in together. |
| Frames.SpinsExactlyWhen | scripts/warm_lsp_mcp.py:570-574 | A frame shrinks the buffer, always for a length of 0 or more, and fails to if and only if its end falls at or before the buffer's start. |
| Headers.LastLengthCounts | scripts/warm_lsp_mcp.py:562-566 | There is no length without a Content-Length line, in letters of any case; a value that is no number anywhere raises; else the last such line counts. |
| Headers.SignedNumberIsRead | scripts/warm_lsp_mcp.py:566-566 | A decimal number is read as itself with any blanks around it and a sign before it. |
| Headers.NoDigitsNoNumber | scripts/warm_lsp_mcp.py:566-566 | A text without a digit is no number. |
| Headers.StepSays | scripts/warm_lsp_mcp.py:552-574 | The header ends at the first four-character blank line, or without one at the first two-character one, or the decoder waits; no length skips the header, a bad one raises, and else the body is the so many characters after it, once they are there. |
| Headers.SentAs | scripts/warm_lsp_mcp.py:522-525 | A frame is sent as `Content-Length: `, its length, a blank line and its body. |
| Mirror.LspSession.Diagnostics | scripts/warm_lsp_mcp.py:429-471 | A call opens a new document under its language id or replaces a known one's whole range, one version up, puts the text on file, and tells whether it was there before. |
| Mirror.RangeCoversExactlyWhen | scripts/warm_lsp_mcp.py:451-460 | The range computed reaches the end of the server's copy if and only if the copy has no lone CR and its last line no character of two UTF-16 units. |
| Mirror.VersionsCountCalls | scripts/warm_lsp_mcp.py:432-433 | A document's version is the number of calls made for it. |
| Mirror.NoteCarriesItsVersion | scripts/warm_lsp_mcp.py:442-467 | Every call sends one notification; the i-th about a document carries version i, and opens it if and only if i is 1. |
| Mirror.NoteSays | scripts/warm_lsp_mcp.py:428-467 | The first notification about a document opens it with its text and the server's language, Python, GDScript, C for `.c` and C++ else; a later one gives the new text, whole exactly when the server takes it so. |
| Mirror.StepMirrorsExactlyWhen | scripts/warm_lsp_mcp.py:442-468 | One call keeps the mirror if and only if whole texts are synced, the document is new, or the text replaced is safe to measure. |
| Mirror.MirrorHoldsExactlyWhen | scripts/warm_lsp_mcp.py:429-468 | Over any run the server's copies equal the texts on file after every call if and only if whole texts are synced or every text later replaced is safe to measure. |
| Utf8.DecodeInvertsEncode | extension/src/client.ts:141-141 | Decoding the bytes of a text gives the text. |
| Utf8.PiecesDecodeExactlyWhen | extension/src/client.ts:90-90 | Decoding a stream chunk by chunk gives its text if and only if no chunk starts with a continuation byte. |
| Utf8.EncodingIsStandard | extension/src/client.ts:141-141 | The bytes of a character are those of section 3 of RFC 3629: one to four by its number, the first in the range that announces them, the number spread over the low bits. |
| Utf8.MalformedIsReplaced | extension/src/client.ts:141-141 | A byte that is first in no character, and a first byte with fewer continuations than it announces, become one U+FFFD, and what follows decodes as if they had not been there. |
| Client.SidecarClient.StartSidecar | extension/src/client.ts:79-90 | A second start throws and changes nothing; a first one empties the accumulator. |
| Client.SidecarClient.SendRequest | extension/src/client.ts:182-194 | A request gets the next id and waits, or settles at once when nothing is running. |
| Client.SidecarClient.OnExit | extension/src/client.ts:117-127 | Every pending request settles, in order, and none is left. |
| Client.SidecarClient.OnStdout | extension/src/client.ts:140-159 | One read dispatches the complete lines that are not empty and keeps the unfinished one. |
| Client.SidecarClient.DispatchComplete | extension/src/client.ts:150-158 | The index loop dispatches the pieces between newlines, in order, and stops where one throws. |
| Client.SidecarClient.DispatchLine | extension/src/client.ts:161-180 | A reply settles its request and no other; a malformed line or a notification is emitted; a null, or a method that is no text, throws. |
| Client.AccumulatorIsPartial | extension/src/client.ts:140-148 | However the output is cut, the accumulator is the unfinished line of the text decoded and never holds a newline. |
| Client.FramingIgnoresChunks | extension/src/client.ts:140-159 | However the output is cut, the lines dispatched are the complete lines of the text decoded that say something, when none but the last of them throws. |
| Client.SidecarLinesArriveExactlyWhen | extension/src/client.ts:10-12 | The lines the sidecar wrote are dispatched under every cut between characters if and only if none but the last to say something throws. |
| Client.CutInsideACharacterIsVisible | extension/src/client.ts:10-12 | The same bytes cut inside a character dispatch another line. |
| Client.RequestsSettleOnce | extension/src/client.ts:79-194 | Over any starts, requests, output and exits: no id is reused, no request settles twice, what was issued is what is pending or settled, and with no process nothing is pending. |
| Client.RepliesAreTheSidecars | extension/src/client.ts:171-176 | Over any run nothing settles with a reply that the sidecar did not send for that very id. |
| Replies.RequestWaitsExactlyUntil | extension/src/client.ts:117-194 | Over any run a request sent to a live process is pending if and only if no line dispatched since answers it and no exit came; it settles with the outcome of the first line that answers it before the exit, else with the exit, and is settled exactly when it is not pending. |
| Replies.EmittedAreTheNotices | extension/src/client.ts:161-180 | What is emitted is, in order, what the dispatched lines parse to where that is a notice or no message at all. |
| Replies.RunningSinceAStart | extension/src/client.ts:75-128 | A process runs exactly while it was started and has not exited since; every request was sent or refused. |
| Replies.EachProcessIsFramedAlone | extension/src/client.ts:79-159 | Whatever an earlier process left unfinished, what is dispatched while one lives is the complete lines of its own output, as long as none throws but the last to say something. |
| Json.DecodeInvertsEncode | scripts/piper_worker.py:1837-1837 | An object written is read back as it was. |
| Json.EncodedIsOneLine | scripts/piper_worker.py:1834-1838 | An encoded object holds no newline, whatever its strings hold. |
| Json.EscapesAreStandard | scripts/piper_worker.py:1834-1838 | Each character is written in a string as section 7 of RFC 8259 has it: quote and backslash escaped, five control characters in their short form, the others by number, the rest as they are. |
| Json.MembersAreJoined | scripts/piper_worker.py:1834-1838 | An object is its members in braces, joined as json.dumps joins them; a member is its quoted key and its value, a quoted text or a decimal number. |
| Journal.LiveJournal.OnNotification | scripts/piper_worker.py:1849-1866 | A token is buffered for its channel and flushed at a change of channel or at 64 characters; a turn flushes and writes itself; anything else changes nothing. |
| Journal.LiveJournal.FlushBuffer | scripts/piper_worker.py:1840-1847 | A non-empty buffer becomes one delta line and is emptied. |
| Journal.LiveJournal.AppendToFile | scripts/piper_worker.py:1834-1838 | The file stays the encoded lines written, each numbered one above the last. |
| Journal.LiveJournal.HandleTurn | scripts/piper_worker.py:1868-1900 | A turn leaves its line, path and command told by its arguments, and a write line when it edited or used a write tool. |
| Journal.ParseToolArgs | scripts/piper_worker.py:1902-1931 | The path and the command are the first non-empty texts under their keys, in the keys' order. |
| Journal.LineRoundTrip | scripts/ui/feed_model.js:268-290 | A journal line is read back from its text by a reader that looks its fields up by name, in any order; the text is one line without blanks around it. |
| Journal.LineSaysItsFields | scripts/piper_worker.py:1840-1897 | The text of a line is one object with exactly the fields of its kind, no key twice, and each value under its own name. |
| Journal.TurnEndWrites | scripts/piper_worker.py:1866-1897 | The end of a turn writes what was buffered, then the turn with each field off the notification, the path and the command off the first argument that tells one and the summary cut to 240, and then a write line exactly when it edited or its tool writes; no line before is touched. |
| Journal.TokenIsBuffered | scripts/piper_worker.py:1849-1865 | A token that is not empty, on one of the two channels, is buffered, another channel's text written first and the buffer when it comes to 64 characters and not before; any other token does nothing. |
| Journal.LinesAreNumbered | scripts/piper_worker.py:1834-1838 | The journal's lines are numbered from 1 without gap or repeat. |
| Journal.JournalHoldsTheTokens | scripts/piper_worker.py:1849-1866 | Whatever the buffering, the lines' text on a channel and what is still buffered are exactly the tokens sent on it. |
| Journal.BufferStaysShort | scripts/piper_worker.py:1861-1862 | The buffer never reaches its limit. |
| Tail.ReadAppended | scripts/piper_ui.py:28-79 | One read gives the parsed complete lines past the offset and moves it past them; a missing file changes nothing, a shrunken one starts over. |
| Tail.ReadJsonl | scripts/piper_ui.py:93-112 | The snapshot's loop reads every line, the last one with or without its newline. |
| Tail.TailRefinesWholeRead | scripts/piper_ui.py:28-79 | However the polls fall, the reads together are one read of the file from where they started. |
| Tail.TailIsTheWholeFile | scripts/piper_ui.py:28-79 | From 0 they are the whole file's complete lines, once each, in order, and the offset is 0 or past a newline. |
| Tail.OneReadSays | scripts/piper_ui.py:28-79 | One read of any file: nothing without it; from the start when it is shorter than the offset; and the objects are those up to the last newline, where the offset is left. |
| Tail.StripsBlanks | scripts/piper_ui.py:60-66 | A line is stripped at both ends of the six blanks of bytes, and nowhere else. |
| Tail.ArmingIsSafeExactlyWhen | scripts/piper_ui.py:248-254 | Starting at end of file tears no line, whatever the reader and whatever comes, if and only if the half-written last line is blank. |
| Watching.ArmingOnTheJournalIsSafeExactlyWhen | scripts/piper_ui.py:248-254 | For the journal's own file and reader: what it held and what is passed on are all its lines if and only if no line was half written. |
| Watcher.WorkspaceWatcher.PollJournal | scripts/piper_ui.py:287-296 | One poll arms the journal's offset if need be, reads it, and passes on its objects; no other offset changes. |
| Watcher.WorkspaceWatcher.ArmOffset | scripts/piper_ui.py:248-254 | An offset is set to the file's size the first time only. |
| Watcher.WorkspaceWatcher.SwitchSlice | scripts/piper_ui.py:268-276 | When another slice becomes the active one every offset is forgotten, so its journals are armed afresh; what was sent stays sent. |
| Watcher.JournalsAreTailedAlone | scripts/piper_ui.py:287-296 | However the polls of the journals interleave, each is tailed as if it were the only one. |
| Watcher.EveryJournalIsPassedOn | scripts/piper_ui.py:287-296 | Every complete line written to a growing journal since it was armed is passed on exactly once, in order. |
| Watcher.SwitchStartsAfresh | scripts/piper_ui.py:268-296 | After a slice switch the watcher goes on, over any polls, as one newly started, and keeps what it sent. |
| Watcher.EveryJournalIsPassedOnAfterASwitch | scripts/piper_ui.py:268-296 | So every complete line written since a journal was armed again is passed on once, in order, after what was sent of it before. |
| Torn.EndDoesNotRead | scripts/piper_ui.py:62-71 | No proper end of a journal line reads as a line, whatever its strings hold. |
| Torn.StartDoesNotRead | scripts/piper_ui.py:93-112 | No proper start of a journal line reads as a line. |
| Watching.ArmedTailReads | scripts/piper_ui.py:248-296 | Armed on any part of the journal's file, the tail gives the lines from the first not yet begun, and nothing of one half written. |
| Watching.SnapshotReads | scripts/piper_ui.py:93-112 | A snapshot of any part of the file has exactly the lines whose text is all there. |
| Feed.FindRowIndex | scripts/ui/feed_model.js:75-80 | The index of the first row of a number, or -1. |
| Feed.PiperWatch.HandleLive | scripts/ui/app.js:145-161 | A line whose number was seen changes nothing; any other is expanded and reduced, counted when it is a turn, and makes the page live. |
| Feed.PiperWatch.ApplySnapshot | scripts/ui/app.js:77-88 | Another slice's snapshot clears the page; then its lines are handled one by one. |
| Feed.PiperWatch.ShowTask | scripts/ui/app.js:97-103 | Another slice's task clears the page. |
| Feed.PageShowsWhatCameSince | scripts/ui/app.js:64-161 | Whatever is delivered in any order, the page shows the lines given since it was last cleared, each once, in the order they first came, and counts their turns. |
| Feed.RowsAreFirstAppearances | scripts/ui/feed_model.js:111-173 | There is one row per number, in order of first appearance. |
| Feed.CallAndResultCommuteExactlyWhen | scripts/ui/feed_model.js:49-152 | A call and its result build one feed in either order if and only if they do not name different tools. |
| Feed.TokensAreSummedUntilFixed | scripts/ui/feed_model.js:183-207 | The token count is the sum over the turns until a result states it, and then what the last result stated. |
| Feed.FeedTextIsDeltaText | scripts/ui/feed_model.js:100-193 | Answer, and sealed thoughts followed by the open one, are the deltas' text: sealing loses and invents nothing. |
| Feed.DuplicatesChangeNothing | scripts/ui/app.js:145-161 | A delivery whose first occurrences are the journal in order gives the feed of the journal delivered once. |
| Rows.PageTellsOfItsLines | scripts/ui/feed_model.js:268-290 | Whatever comes to the page, the feed tells of the lines given since it was last cleared, the first of each number, and of nothing else: in order, a row with every field of a turn's call or of a write; the tokens of the turns; the thoughts, each with its turn's number; and the turns are counted. |
| Rows.OneRowChanges | scripts/ui/feed_model.js:111-173 | A call, a result and a write change one row, the first with their number or a new one, each field as the event says or as it was, and nothing else. |
| Rows.MetersShowTheLast | scripts/ui/feed_model.js:195-252 | Over any events: context and cloud tokens are those last stated, the notes are all there in order, and the checklist is the last one, with its total and its open items. |
| Rows.SlicesAreFollowed | scripts/ui/app.js:77-103 | A snapshot is of the active slice, else of its task's; another id than the page's clears it, and so does another task's; lines do not. |
| Pipeline.JournalReadsBack | scripts/piper_ui.py:52-77 | Reading the journal's file gives back the lines written to it. |
| Pipeline.FeedTextIsTokenText | scripts/piper_worker.py:1834-1866 | For every stream of notifications, schedule of polls and repeated delivery, the feed's text with what the journal still buffers is the text of the tokens sent. |
| Pipeline.OnePollIsASchedule | scripts/piper_ui.py:28-79 | Schedules as the theorem speaks of exist for every stream: one poll, delivered once. |
| Pipeline.ClosedJournalShowsEverything | scripts/piper_worker.py:1936-1938 | Once the journal is closed the feed's text is the text of the tokens sent. |
| Pipeline.CompletePageShowsTheTokens | scripts/ui/app.js:145-161 | Whatever comes to the page, when what it was given since it was cleared is in order of first occurrence the journal, its text with what is buffered is the tokens'. |
| Watching.PageIsCompleteExactlyWhen | scripts/ui/app.js:27-95 | With a snapshot among the lines passed on, those are the journal in order if and only if the snapshot cleared the page and has every line passed on before it, or did not and the page was there from the first line or nothing came before and no gap is left. |
| Watching.WatchedPageShowsTheTokensExactlyWhen | scripts/piper_ui.py:248-296 | For every stream of tokens, schedule of polls, moment of arming and of the snapshot: the page is given the whole journal in order if and only if that condition holds, and then its text is the tokens'. |
| Visits.VisitIsCompleteExactlyWhen | scripts/ui/app.js:27-103 | For every order of lines passed on or missed, snapshots and tasks, whatever was shown before: since it was last cleared the page has the journal in order if and only if each line sent to it was one it had or the next, and it has come to the last. |
| Visits.VisitShowsTheTokensExactlyWhen | scripts/piper_ui.py:268-296 | The same for every stream of tokens, schedule of polls since the slice switch, and visit; and then the page's text is the tokens'. |
| AskProtocol.InvAlways | scripts/piper_worker.py:2519-2534 | What every step of worker and parents keeps: files, processes and asks fit together. |
| AskProtocol.AnswersReachTheirAsk | src/surface/worker.cpp:1504-1524 | In every interleaving an answer is applied only to the ask its parent saw open, and no ask is answered twice. |
| AskProtocol.StatusReportsExactlyTheOpenAsk | scripts/piper_worker.py:2519-2547 | A status taken at one moment reports an ask exactly while a live run waits on it, never one whose result exists. |
| AskProtocol.SplitReadMissesResultOnlyAcrossRuns | scripts/piper_worker.py:2531-2534 | When the ask is read before its run finishes and no result is found after, another run has been launched in between. |
| AskProtocol.ReportIsOutdatedExactlyWhen | scripts/piper_worker.py:2531-2534 | When a parent finds the asking process alive, the run it saw has finished if and only if that run's result is there by now or another run has been launched; it reports the ask if and only if it had found no result. |
| AskProtocol.SeenAsksWereThere | scripts/piper_worker.py:2531-2531 | Whatever ask a parent holds was in the ask file when it read it. |
| AskProtocol.ReportedAsksWereOpen | scripts/piper_worker.py:2531-2547 | Every ask a parent reports was the one a status would have given at the moment it read the file. |
| AskProtocol.SplitReadCanReportAFinishedRun | scripts/piper_worker.py:2531-2534 | A run in which a parent reports a finished run as asking, its two reads in different runs. |
| AskProtocol.LateLookCanReportAFinishedRun | scripts/piper_worker.py:2531-2534 | Another, with one run only: it ends between the second read and the report. |
| AskProtocol.FilesAreTouchedBy | src/surface/worker.cpp:1448-1533 | A step changes the ask, the answer or the result file only as its writer or its remover, and what is written is that run's number and question, that ask's answer, that run's result. |
| AskProtocol.FilesAreRemoved | src/surface/worker.cpp:1504-1560 | A starting worker empties the three files one by one; an answer taken or turned down is removed, an ask done waiting for or closed is removed, and a worker that is done leaves its result. |
| AnswerFate.AppliedExactlyWhenPolled | src/surface/worker.cpp:1476-1530 | Whatever happens after an answer is written, it is applied if and only if the worker polls while the file holds it and its ask is the one waited on. |
| AnswerFate.AnswerIsLostExactlyWhen | src/surface/worker.cpp:1504-1524 | The answer of a parent that was told of an open ask can still be applied if and only if, as it is written, the worker waits on that ask and is not removing one it has turned down. |
| AnswerFate.RaceLosesTheAnswer | src/surface/worker.cpp:1509-1510 | A run in which the ask is open and reported, and any answer to it is lost with the stale one being removed. |

## Left out

- Integer widths: counters and event numbers are unbounded; `size_t`, `uint64_t` and the `int` counters of a summary do not wrap, and `atoi` of a number too large is not modelled.
- Prompt wording: persona, workspace, recall, memory and rehydrate sentences are parameters (`Wording`), as are the notes and pointers of a read (`Texts`); strings have no limit on length.
- Plan-only counters, the loading and unloading of skills, and the setters of the system fields: the prompt is proved stable with those fields fixed.
- The agent's loop: token counts, the shrinking of single observations, and reads batched into one turn, which are dispatched before any of them is recorded.
- DeferredCollapse.CopiesLeftAreTheNoted: bytes a tool returned hold no `[Note:` line of their own, the repeat note is shorter than 512 characters, and no record is cut; whether a read repeats an earlier one is an input.
- DeferredCollapse.CopySurvivesExactlyWhen: under the same conditions on what is read.
- `can_auto_resume`, a chain of single checks.
- Journal.LineRoundTrip: nesting, floats, booleans and escaped surrogate pairs are not read, and an object that lacks a field of its kind is no line, where the page would show that field empty; the journal writes none.
- Journal.ParseToolArgs: the arguments are an object already, or what their text parses to.
- Tail.ReadAppended: bytes are modelled as characters and the JSON reader is a parameter, so undecodable bytes are one more malformed line; size and content are one snapshot.
- Tail.ReadJsonl: lines end at newlines only and the blanks stripped are those of bytes; a journal holds no other line break outside its strings' escapes.
- Tail.TailRefinesWholeRead: the file only grows, as the journal's does; what a tail shows of a file that was truncated or replaced is stated for one read only.
- Frames.LspReader.DrainFrames: a drain that would never end is an outcome (`Spinning`) instead of a loop; what a body parses to is a parameter, the dispatch by method is not modelled, `\r\n` counts as two line breaks where Python has one, and the 4300-digit limit of `int()` is not modelled.
- Mirror.LspSession.Diagnostics: the wait for a publish and its timeouts are not modelled; the path's suffix comes in lower case.
- Mirror.RangeCoversExactlyWhen: a character offset inside a two-unit character is rounded down and one past the line's end stands for its end.
- Utf8.PiecesDecodeExactlyWhen: the decoder does not refuse three- and four-byte overlong forms at their second byte; the text cut in pieces is well formed, so none occurs.
- Client.SidecarClient.OnExit: the exit handler and the start after it are atomic; a late handler of an old process after a restart is not modelled.
- Client.SidecarClient.DispatchLine: what JSON.parse makes of a line is a parameter, told apart as the code does; listeners that throw are not modelled.
- Feed.PiperWatch.HandleLive: lines without a number, non-numeric numbers, the status pill and the clock; checklists given as text, `expandLog`, and the events and orchestrator lines of a snapshot.
- Watching.WatchedPageShowsTheTokensExactlyWhen: one snapshot reaches the page, which stays connected; `Visits.VisitShowsTheTokensExactlyWhen` is about any number, reconnections and tasks.
- Visits.VisitShowsTheTokensExactlyWhen: lines and snapshots come to the page whole; a page that holds another slice's lines is cleared by the first thing that comes to it, as it is by the broadcast of the switch when the slice has an id.
- Rendering.RepointingBreaksThePrefix: an empty copy shows nothing, and a pointer in its place adds a message; whether the old prefix then happens to survive is not stated.
- ListingLaws.ListedRowIsRebuiltExactlyWhen: the chooser's own filters, by workspace and by the form of the id, are not modelled.
- AskProtocol.AnswersReachTheirAsk: answers written by hand, reused process ids, asks without a process id, and an ask whose event is missing from the log (its number would be 0) are not modelled; the text of an answer is carried and not interpreted.
- Processes, sockets, threads, timers, webhooks, the sandbox, the model back ends, the webview and the markdown renderer.
