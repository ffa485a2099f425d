# Verification model of the Abolqasem server's cores

This project models the algorithmic and stateful cores of the server in Dafny
and proves what they promise. `dafny verify dfyconfig.toml` checks all of it.

Each core is modelled in its own form: loops over the same variables where the
source has loops, classes with the same fields where it updates objects under
a lock, functions and predicates where it computes a value. Loops and classes
are proved against specification functions, and the theorems are about those.

| files | what they model |
|---|---|
| `TelegramFence`, `TelegramSplit*` | cutting rich Markdown into Telegram messages: fences closed and reopened, table headers repeated |
| `ConnectionRegistry`, `BroadcastProtocol` | subscriptions, and the coalescing, rate-limited broadcaster of chats as a protocol of callers and workers |
| `TranscriptEntries`, `TranscriptPaging`, `TranscriptWalk`, `TranscriptAround`, `NativeHistoryCache`, `HistoryCacheRuns` | the initial snapshot, the pagers over stored and streamed transcripts, the windows around a target, the page cache and all interleavings of its users |
| `ParserStream`, `ParserVisit`, `ParserEmits`, `ParserTree`, `ParserPromises` | the two transcript parsers, the search, what they emit for each line and tree, and what holds of every parsed transcript |
| `JsonScanner` | the scanner that finds a JSON object at the start of a text |
| `BoundedCache` | the byte-bounded caches of the parser and of imported sessions |
| `SkillOperations`, `SkillHistory`, `SkillRuns` | the tracker of skill installs, its history, and all interleavings of its workers |
| `CheckpointTree`, `Checkpoints` | capture and restore of filesystem checkpoints |
| `ProcessAncestry`, `BoundedLog` | process ancestry over tables with cycles; capped log files and their pruning |
| `Text`, `Options` | strings as the source's library calls treat them |

Text is a sequence of runes, time an integer that does not run backwards.
Locks are atomic steps: a run is any sequence of lock sections, timers and
unlocked calls. Go's map order is any order.

## Where the code does not do what one would expect

These are theorems here, each with its exact condition.

- The splitter does not stop on every text. A fence line of more than 1748
  runes, or two table lines of more than 873, can make what is repeated as long
  as the cut, so that the remainder is the text itself (`BoundsAreExact`,
  `StuckFenceReproducesItself`, `StuckReproducesItself`).
- The streaming window around a target slices an empty list for a limit of one
  unless the first message is the target (`NativePanics`). Near the end of a
  transcript it is shorter than the sliced window (`WindowsAgree`).
- The streaming pager also stops at a message whose number is the cursor, the
  pager over stored entries does not (`PagersAgreeOnParsed`,
  `NumberedCursorDiffers`).
- The snapshot looks for the call of a tool result only in the count-limited
  window, before the byte budget is applied; for a call before that window the
  raw output is dropped even where the tool needs it (`SnapshotLosesRaw`,
  `AnswerLosesRaw`).
- Restoring a checkpoint deletes the files its capture left out, even if nothing
  was edited in between: whenever a found file is over 10 MiB, or all of them are
  more than 5000 or 200 MiB (`CheckpointEditRestore`, `CleanIfCapturable`). It
  also deletes all directories without files (`Restore`).
- A refresh of a native transcript does not reach a load in the air: a page read
  before it under the same file time and size is stored after it and served
  (`RefreshIsSound`, `StaleIsServed`).
- A full page cache drops its oldest page even when it only replaces one
  (`NativeHistoryCache.HistoryCache.Store`).
- Pruning logs runs off the end of its list if the logs it cannot remove exceed
  the size limit by themselves (`Prune`).

## Model

| member | source | states |
|---|---|---|
| TelegramFence.ReadFenceLine | internal/server/telegram_bridge.go:1748-1768 | the loop that counts the opening run finds a fence exactly for trimmed lines that start with three equal backticks or tildes; the marker is the whole run, and what follows it starts with another rune |
| TelegramFence.FenceLineIs | internal/server/telegram_bridge.go:1748-1768 | the same of the function the theorems use: a fence line is a trimmed line that starts with three equal backticks or tildes; its marker is all of that run and no more |
| TelegramFence.FindOpenFence | internal/server/telegram_bridge.go:1730-1746 | the line-by-line update of `current` ends with the fence some line opened and no later fence line closed, or with none if there is no such |
| TelegramFence.OpenMeansLeftOpen | internal/server/telegram_bridge.go:1730-1746 | a fence is open after the lines if and only if one of them opened it when none was open and no later fence line starts with its marker |
| TelegramFence.ClosedByMarker | internal/server/telegram_bridge.go:1741-1743 | a fence line that starts with the marker of the open fence closes it |
| TelegramFence.FenceCameFrom | internal/server/telegram_bridge.go:1730-1746 | a fence that is open at the end was opened by one of the lines, with that line's opening and marker |
| TelegramFence.OpeningAndMarker | internal/server/telegram_bridge.go:1715-1717 | the trimmed opening line opens the same fence when it is put before the remainder, and the marker is a fence line when it is put after the chunk |
| TelegramFence.IsTableDivider | internal/server/telegram_bridge.go:1783-1795 | the scan accepts exactly trimmed lines of pipes, dashes, colons and spaces with two pipes and a dash |
| TelegramFence.FindTableHeader | internal/server/telegram_bridge.go:1770-1781 | the first two of the pipe lines that end the text, trimmed, if the second is a divider |
| TelegramFence.FindTableStart | internal/server/telegram_bridge.go:1772-1775 | the backward scan stops at the first line of the pipe lines that end the text |
| TelegramFence.TableStartIsFirst | internal/server/telegram_bridge.go:1772-1776 | all lines from there on hold a pipe and the one before does not |
| TelegramSplit.LastCutIsLargest | internal/server/telegram_bridge.go:1684-1691 | the cut the search settles on is usable and no larger one in its range is |
| TelegramSplit.RenderIs | internal/server/telegram_bridge.go:1709-1728 | in terms of trimmed halves, open fence and header: when a split is refused, and else what chunk and remainder are, rune by rune |
| TelegramSplit.StepIs | internal/server/telegram_bridge.go:1680-1707 | the cut of a step is the largest in 1750..3500 after a space where a split is not refused; if there is none it is 3500, or 3499 less the marker of the fence open there; and the step is that split or the two trimmed halves |
| TelegramSplit.RenderMarkdownSplit | internal/server/telegram_bridge.go:1709-1728 | a split is refused for an empty half or a chunk over the limit; otherwise the chunk closes its open fence and the remainder reopens it or repeats the table header |
| TelegramSplit.SplitMarkdownChunk | internal/server/telegram_bridge.go:1680-1707 | the whole step: largest usable space cut from the limit down to half of it, else a hard cut with room for the marker, else the two bare halves |
| TelegramSplit.ChunksUnique | internal/server/telegram_bridge.go:1654-1669 | the messages of a run do not depend on the bound that shows it stops |
| TelegramSplitStep.CutParts | internal/server/telegram_bridge.go:1713-1714 | any cut of a trimmed text takes it apart into a body, white space and a tail, with nothing else lost |
| TelegramSplitStep.StepShape | internal/server/telegram_bridge.go:1680-1707 | every step of every text: what the chunk and the remainder are made of, a chunk within the limit, and a tail no longer than what follows the cut |
| TelegramSplitStep.PrefixShape | internal/server/telegram_bridge.go:1715-1722 | what is put before the remainder is nothing, the opening of a fence line of the chunk, or two pipe lines of it of which the second is a divider |
| TelegramSplitHalts.PrefixKeepsBound | internal/server/telegram_bridge.go:1715-1722 | if the fence lines of a text have at most `fence` runes and its table lines at most `pipe`, so have those of the remainder with what is put before it |
| TelegramSplitHalts.StepShrinks | internal/server/telegram_bridge.go:1660-1667 | for a text whose fence lines have at most 1748 runes and table lines at most 873 each step leaves a strictly shorter remainder, because what is put before it is shorter than the cut |
| TelegramSplitHalts.BoundedHalts | internal/server/telegram_bridge.go:1660-1667 | the loop stops on every such text, of any length |
| TelegramSplitTight.SelfReproducingNeverHalts | internal/server/telegram_bridge.go:1660-1667 | on a text that is its own remainder the loop never stops |
| TelegramSplitTight.StuckReproducesItself | internal/server/telegram_bridge.go:1680-1728 | a concrete table with two lines of 874 runes and a word of 2000 is its own remainder |
| TelegramSplitTight.StuckFenceReproducesItself | internal/server/telegram_bridge.go:1680-1728 | a concrete fence line of 1749 runes and a word of 2000 is its own remainder too |
| TelegramSplitTight.BoundsAreExact | internal/server/telegram_bridge.go:1654-1728 | the loop stops on all texts whose fence lines have at most `fence` runes and table lines at most `pipe` if and only if `fence` is at most 1748 and `pipe` at most 873 |
| TelegramSplitFences.ClosingCloses | internal/server/telegram_bridge.go:1715-1717 | every chunk a split renders leaves no fence open, for any text |
| TelegramSplitFences.PrefixReopens | internal/server/telegram_bridge.go:1715-1722 | reading the remainder starts in the fence that was open at the cut |
| TelegramSplitFences.FenceStateKept | internal/server/telegram_bridge.go:1709-1728 | for a cut at a line break the remainder ends with the same fence open as the uncut text |
| TelegramSplitHard.MarkerNotLonger | internal/server/telegram_bridge.go:1694-1698 | taking runes off the end of a text in an open fence never leaves a fence with a longer marker open, so the reserved room is enough |
| TelegramSplitHard.HardCutFits | internal/server/telegram_bridge.go:1693-1704 | the hard cut of a text without a usable space is always rendered: body, line break and marker fit the limit |
| TelegramSplitHard.AlwaysDressed | internal/server/telegram_bridge.go:1684-1706 | the last fallback, two bare halves, is reached only if an open marker fills the whole limit |
| TelegramSplitMarkers.MarkerShort | internal/server/telegram_bridge.go:1730-1746 | a text without a run of 3499 backticks or tildes opens no fence with so long a marker |
| TelegramSplitMarkers.ShortStep | internal/server/telegram_bridge.go:1680-1728 | every step of such a text, however long its lines, closes and reopens what it cuts through, and its remainder is such a text |
| TelegramSplitRun.StepIsClean | internal/server/telegram_bridge.go:1661-1664 | for any text no chunk and no remainder is empty, so the early `break` is never taken |
| TelegramSplitRun.SplitText | internal/server/telegram_bridge.go:1654-1669 | the loop returns exactly the messages of the run, and none for a blank text |
| TelegramSplitRun.MessagesFit | internal/server/telegram_bridge.go:1654-1669 | every message of every run is non-empty and at most 3500 runes |
| TelegramSplitRun.BoundedStep | internal/server/telegram_bridge.go:1680-1728 | under the line bounds a step cuts in the upper half, closes and reopens what it cuts through, and the remainder is under the bounds again |
| TelegramSplitRun.BoundedTextHalts | internal/server/telegram_bridge.go:1654-1669 | every text under the line bounds, once trimmed, is split in finitely many steps |
| TelegramSplitRun.NothingLost | internal/server/telegram_bridge.go:1654-1728 | the trimmed text is the pieces in order with only white space between them, and message i is exactly what was repeated for it, piece i and its closing |
| TelegramSplitRun.FencesClosed | internal/server/telegram_bridge.go:1654-1728 | every message but the last leaves no fence open, for every text without a run of 3499 backticks or tildes |
| TelegramSplitRun.FenceStateAtEnd | internal/server/telegram_bridge.go:1654-1728 | for such a text, if all cuts are at line breaks, the last message leaves open exactly what the whole text leaves open |
| TelegramSplitRun.HeaderRepeatsAgain | internal/server/telegram_bridge.go:1770-1781 | a repeated header is found again by the next cut while the table's rows go on |
| WorkspaceRegistry.ConnectionRegistry.constructor | internal/server/workspace_composer.go:57-66 | an empty registry |
| WorkspaceRegistry.ConnectionRegistry.ScheduleBroadcast | internal/server/workspace_composer.go:79-92 | one lock section: the status recorded, the chat pending and running, a worker asked for if there is none, and the sidebar if the status is new |
| WorkspaceRegistry.ConnectionRegistry.WorkerTurn | internal/server/workspace_composer.go:96-112 | one lock section of the worker: leave, wait for the rest of the interval, or clear the flag and stamp the broadcast |
| WorkspaceRegistry.ConnectionRegistry.Add | internal/server/workspace_composer.go:119-123 | adds one connection and touches no subscription |
| WorkspaceRegistry.ConnectionRegistry.Subscribe | internal/server/workspace_composer.go:137-147 | the set of (topic, connection, id) triples gains exactly one |
| WorkspaceRegistry.ConnectionRegistry.Unsubscribe | internal/server/workspace_composer.go:149-167 | the set loses exactly one triple, and no empty inner map is left |
| WorkspaceRegistry.ConnectionRegistry.Remove | internal/server/workspace_composer.go:125-135 | the set loses all triples of that connection and no other, and no empty inner map is left |
| WorkspaceRegistry.ConnectionRegistry.TopicSubscribers | internal/server/workspace_composer.go:169-180 | lists each triple of the topic exactly once |
| WorkspaceRegistry.TriplesDetermine | internal/server/workspace_composer.go:119-180 | without empty inner maps the triples determine the nested maps, so the registry is that set |
| BroadcastProtocol.StepKeepsInv | internal/server/workspace_composer.go:68-117 | each atomic step of a caller or a worker keeps: one worker per running chat, pending implies running, nothing forgotten, stamps apart, sleepers with a reason |
| BroadcastProtocol.ReachableInv | internal/server/workspace_composer.go:68-117 | so does every interleaving from the empty registry |
| BroadcastProtocol.Safety | internal/server/workspace_composer.go:68-117 | in every reachable state a pending chat has its worker, no chat has two, and two broadcasts of a chat are at least 150 ms apart |
| BroadcastProtocol.NoUpdateLost | internal/server/workspace_composer.go:68-117 | when a worker exits, the last broadcast began after the last schedule call of its chat; a registry without workers owes no chat anything |
| BroadcastProtocol.StatusesAreLastCalls | internal/server/workspace_composer.go:82-83 | in every run the registry holds for each chat exactly the status of its last call |
| BroadcastProtocol.RefreshAsked | internal/server/workspace_composer.go:80-92 | in every run a call asks for a refresh of the sidebar if and only if it is the first of its chat or the call before it had another status |
| BroadcastProtocol.WorkerCanStep | internal/server/workspace_composer.go:94-116 | a worker is never stuck |
| BroadcastProtocol.StepsLeftFall | internal/server/workspace_composer.go:94-116 | its own steps bring it nearer to its exit and those of others never take it away |
| BroadcastProtocol.ServedWithinSixSteps | internal/server/workspace_composer.go:94-116 | a chat that is not scheduled again is broadcast and its worker gone after at most six steps of that worker, in any interleaving |
| TranscriptEntries.TrimPayload | internal/server/workspace_snapshots.go:423-446 | only results change, and only by their raw output, which is kept if and only if the last call with the result's id, at the top or nested, asks the user or leaves the plan mode |
| TranscriptEntries.RawIsKept | internal/server/workspace_snapshots.go:423-446 | a result keeps its raw output if and only if the last tool call before it with its id, at the top or nested where the top has none, asks the user or leaves the plan mode |
| TranscriptEntries.NestedCallKeepsRaw | internal/server/api.go:475-487 | a call that carries its id in its tool object only keeps the raw output of its result, for exactly these two kinds |
| TranscriptEntries.WindowDropsRaw | internal/server/workspace_snapshots.go:423-446 | a list that starts at `base` drops the raw output of a result of the transcript if and only if its tool does not need it or was not called between `base` and the result |
| TranscriptEntries.BoundPayload | internal/server/workspace_snapshots.go:404-421 | keeps the newest entries that fit the byte budget, always the newest one, and no entry more would have fitted |
| TranscriptEntries.FitIsUnique | internal/server/workspace_snapshots.go:404-421 | that determines what is kept |
| TranscriptPaging.LoadStored | internal/server/workspace_commands.go:692-740 | the page is the last `limit` entries before the first one with the cursor, and says whether and how to go on |
| TranscriptPaging.PageIs | internal/server/workspace_commands.go:722-739 | a page has min(limit, end) entries up to its end, more exactly if `end` is beyond the limit, and then the cursor of its first entry |
| TranscriptPaging.StoredEndMeans | internal/server/workspace_commands.go:713-721 | it ends before the first entry with the cursor, or at the end of the list |
| TranscriptPaging.ChatSnapshot | internal/server/workspace_snapshots.go:363-399 | the snapshot is the count-limited window without the raw output not needed there, less exactly the oldest entries that do not fit the byte budget, with a cursor that leads to what is before it |
| TranscriptPaging.SnapshotIsUnique | internal/server/workspace_snapshots.go:363-399 | which determines the snapshot |
| TranscriptPaging.SnapshotLosesRaw | internal/server/workspace_snapshots.go:378-379 | a shown result whose tool needs its raw output lacks it if and only if no call of the tool lies in the window before it; calls left out for the byte budget count |
| TranscriptPaging.AnswerLosesRaw | internal/server/workspace_snapshots.go:378-379 | a question and its answer: the snapshot of one entry lacks the raw output of the answer |
| TranscriptPaging.NativeEndIsFirst | internal/server/workspace_commands.go:823-826 | the stream stops at the first message the cursor matches |
| TranscriptPaging.Slide | internal/server/workspace_commands.go:827-832 | one turn of the callback keeps in the window the last messages seen, up to the limit |
| TranscriptPaging.LoadNative | internal/server/workspace_commands.go:820-845 | the sliding window returns the last `limit` messages before the one that stops the stream |
| TranscriptPaging.NativeCursorsNotBlank | internal/server/workspace_commands.go:1234-1239 | cursors of native entries are never blank |
| TranscriptPaging.EntryIs | internal/server/workspace_commands.go:992-1112 | an entry has its message's cursor and id, and everything else from the message's content |
| TranscriptPaging.NativeSnapshot | internal/server/workspace_snapshots.go:246-296 | the native snapshot is that of the native transcript in the same sense |
| TranscriptWalk.EndsAgree | internal/server/workspace_commands.go:692-850 | for any messages and any cursor both pagers end their page at the same place if and only if the message that stops the stream, if any, carries the cursor itself |
| TranscriptWalk.PagersAgree | internal/server/workspace_commands.go:692-850 | and, if no cursor is repeated, return the same page only then |
| TranscriptWalk.NumberedCursors | internal/server/workspace_commands.go:992-1112 | ids as the parser makes them give distinct cursors, none blank |
| TranscriptWalk.PagersAgreeOnNumbered | internal/server/workspace_commands.go:692-850 | on parsed transcripts both pagers find every cursor a page hands out at its own message |
| TranscriptWalk.PagersAgreeOnParsed | internal/server/workspace_commands.go:692-850 | on parsed transcripts the pages agree for a cursor if and only if it is, trimmed, no message's number, and is untrimmed if it is a message's id |
| TranscriptWalk.NumberedCursorDiffers | internal/server/workspace_commands.go:1241-1247 | on a parsed message the pages differ for its number |
| TranscriptWalk.StoredPageStable | internal/server/workspace_commands.go:713-739 | appending entries does not change the page before a cursor of the list |
| TranscriptWalk.NativePageStable | internal/server/workspace_commands.go:820-845 | nor does it for the streaming pager |
| TranscriptWalk.WalkIsWhole | internal/server/workspace_commands.go:692-740 | following olderCursor ends, and the pages put together are everything before the first cursor, without gap or duplicate, for any positive limits and whatever is appended between requests |
| TranscriptWalk.SnapshotAndWalkRebuild | internal/server/workspace_snapshots.go:363-399 | snapshot and pages together rebuild the whole transcript, up to raw tool output |
| TranscriptWalk.NativeRebuild | internal/server/workspace_snapshots.go:246-296 | native snapshot and native pages together rebuild the whole native transcript, up to raw tool output, whatever is appended meanwhile |
| TranscriptAround.LoadNativeAround | internal/server/workspace_commands.go:938-990 | the streaming window around a target, the panic included |
| TranscriptAround.NativePanics | internal/server/workspace_commands.go:958-965 | it panics if and only if the limit is one and the first message is not the target |
| TranscriptAround.NativeShowsTarget | internal/server/workspace_commands.go:938-990 | otherwise the window is exactly [max(0, t - limit/2), min(n, start + limit)), holds the target, and its cursor is that of its first entry |
| TranscriptAround.SliceAround | internal/server/workspace_legacy.go:841-875 | the slice, its start pulled back at the end of the list |
| TranscriptAround.EntryIndexIs | internal/server/workspace_legacy.go:877-893 | a number of the list finds the entry at that place, any other cursor the first entry that has it |
| TranscriptAround.SliceShowsTarget | internal/server/workspace_legacy.go:841-875 | it is contiguous, holds the target and min(limit, n) entries |
| TranscriptAround.SameTarget | internal/server/workspace_commands.go:1241-1247 | a target that is not a number is found at the same message by both windows, in any list of messages |
| TranscriptAround.WindowsAgree | internal/server/workspace_commands.go:938-990 | for such a target both windows are equal if and only if the streaming one does not panic and the limit does not reach past the end, or the window starts with the transcript, or nothing is found |
| TranscriptAround.NumberedTargets | internal/server/workspace_legacy.go:877-893 | both find a parser's cursor at its own message |
| TranscriptAround.SliceCursorResolves | internal/server/workspace_legacy.go:866-893 | the cursor of a slice leads back to its first entry if and only if that entry's cursor is blank, its own number, or unpadded and the first of its kind |
| TranscriptAround.NumberedResolvable | internal/server/workspace_legacy.go:866-893 | which all parsed entries are |
| NativeHistoryCache.HistoryCache.Load | internal/server/workspace_commands.go:809-850 | a load that nothing comes between returns the page of the transcript as it is, with or without a cached page, wherever the stamp of a file tells what it says |
| NativeHistoryCache.HistoryCache.Lookup | internal/server/workspace_commands.go:868-878 | a hit exactly for a page stored under this key and stamp |
| NativeHistoryCache.HistoryCache.Store | internal/server/workspace_commands.go:899-918 | at most 32 pages; a full cache loses exactly its least recently used one, even if the key is already there |
| NativeHistoryCache.HistoryCache.Invalidate | internal/server/workspace_commands.go:884-897 | removes exactly the pages of the path, after which the kept pages are right whatever the file now says |
| HistoryCacheRuns.StepKeepsSound | internal/server/workspace_commands.go:809-918 | each step of loads, refreshes and writers keeps every page no older than the stamp it is under, as long as the file takes on no old look |
| HistoryCacheRuns.AllServedTimely | internal/server/workspace_commands.go:809-878 | so in every interleaving of the two lock sections every load is served what the file said at some point while it ran |
| HistoryCacheRuns.StepKeepsHonest | internal/server/workspace_commands.go:820-845 | loads in the air hold what the file said since they began, whatever its looks |
| HistoryCacheRuns.RefreshIsSound | internal/server/workspace_commands.go:880-897 | after a refresh, whatever went before, the cache is sound from the present version on if and only if no load in the air holds a page it read earlier under the present look of the file |
| HistoryCacheRuns.StaleIsServed | internal/server/workspace_commands.go:880-918 | such a page is stored after the refresh and served to the next load |
| ParserStream.LoadMessages | internal/parser/parser.go:428-472 | the collecting loop returns the messages of the lines as filtered, or those of the tree if there are none |
| ParserEmits.OtherAgents | internal/parser/parser.go:1306-1354 | for agents other than Codex the list is exactly what the lines say, in order, each numbered by its line |
| ParserEmits.CodexLine | internal/parser/parser.go:1306-1354 | for Codex, line by line and in the fields of the messages: exactly when a line's message is emitted, and as what |
| ParserEmits.CommandsAreLines | internal/parser/parser.go:1306-1327 | an item is known if and only if an earlier line is a command with it, emitted or not |
| ParserEmits.TranscriptIs | internal/parser/parser.go:428-472 | the tree is used exactly if the lines say nothing, and its messages are numbered from one |
| ParserStream.CollectTree | internal/parser/parser.go:699-719 | the accumulating walk appends the messages of the tree in order, numbered on |
| ParserTree.TreeMessagesAre | internal/parser/parser.go:699-719 | its messages are exactly the message objects that a path of at most eight steps, through lists and the eight keys, leads to, from left to right |
| ParserVisit.StreamMessages | internal/parser/parser.go:293-352 | the streaming loop hands over a prefix of the very list the collecting loop returns, up to where the visitor stops |
| ParserVisit.DeliveredIs | internal/parser/parser.go:336-340 | all of the list, or the shortest non-empty prefix after which the visitor wants no more |
| ParserVisit.VisitTree | internal/parser/parser.go:721-750 | the visiting walk hands over the same messages as the accumulating one, and stops at once when told to |
| ParserVisit.StreamIsLoad | internal/parser/parser.go:293-352 | a visitor that never stops is handed everything, any other a prefix |
| ParserVisit.SearchMessages | internal/parser/parser.go:251-291 | the search returns exactly the first `limit` messages that match |
| ParserVisit.HitsAre | internal/parser/parser.go:273-285 | the matches are all messages that match, once and in order |
| ParserVisit.FirstHits | internal/parser/parser.go:273-285 | the search stops only when it has enough |
| ParserPromises.NumbersOfLines | internal/parser/parser.go:312-340 | numbers rise strictly, are line numbers, and make the ids |
| ParserPromises.CodexPairs | internal/parser/parser.go:1334-1354 | every emitted MCP result directly follows an MCP call and carries its tool id; no two neighbours are the response and the event of one message |
| ParserPromises.CodexCommands | internal/parser/parser.go:1306-1327 | every emitted command carries an item that a command line up to it registered |
| ParserPromises.OutputsFollowCommands | internal/parser/parser.go:1306-1327 | an output is emitted only as a command, and only if an earlier line is a command with its item |
| ParserPromises.AllArePageable | internal/parser/parser.go:251-352 | what is parsed from lines or from a tree meets all the pagers need: distinct cursors, none blank |
| ParserPromises.ParsedTranscriptRebuilt | internal/parser/parser.go:293-352 | so snapshot and native pages rebuild all that the parser found in a transcript, of lines or of a tree |
| JsonScanner.ExtractBalancedObject | internal/parser/parser.go:1259-1291 | the scan returns the text up to the first closing brace that brings the depth outside strings to zero, and fails exactly if there is none |
| JsonScanner.OpenUntilClosed | internal/parser/parser.go:1259-1291 | on a text that starts with a brace the depth stays positive until then |
| JsonScanner.ClosesAtFirstBalance | internal/parser/parser.go:1259-1291 | there the stop is exactly the shortest balanced prefix |
| JsonScanner.FailsOnlyUnbalanced | internal/parser/parser.go:1259-1291 | and it fails if and only if no prefix is balanced |
| JsonScanner.PrintIsQuiet | internal/parser/parser.go:1259-1291 | reading any printed JSON value (RFC 8259, sections 2 to 7) outside a string leaves depth and state as they were and never goes below |
| JsonScanner.PrintedObjectCloses | internal/parser/parser.go:1259-1291 | a printed object closes exactly at its last rune, whatever follows |
| JsonScanner.ExtractPrinted | internal/parser/parser.go:1259-1291 | any printed object followed by any text is extracted as printed |
| BoundedCache.Cache.Parser | internal/parser/parser.go:128-130 | an empty cache with the parser's limits: 16 entries, 128 MiB, ten minutes |
| BoundedCache.Cache.Imports | internal/server/workspace_legacy.go:42-46 | an empty cache with the limits for imported sessions: 8 entries, 96 MiB, ten minutes |
| BoundedCache.Cache.Get | internal/parser/parser.go:505-524 | a hit is what was last stored under this key with this fingerprint and is marked as used; a stale or expired entry goes |
| BoundedCache.Cache.Set | internal/parser/parser.go:526-545 | an entry over half the byte limit is refused; otherwise it replaces its key and the rest is evicted as far as needed; counts and bytes are within limits |
| BoundedCache.Cache.RemoveLocked | internal/parser/parser.go:547-555 | the byte counter stays the sum of the entries, so the clamp to zero never acts |
| BoundedCache.Cache.EvictLocked | internal/parser/parser.go:557-577 | expired entries go; of the others only the oldest, and only as many as there is no room for |
| BoundedCache.Cache.ExpireLocked | internal/parser/parser.go:558-562 | exactly the expired entries go |
| BoundedCache.Cache.CapLocked | internal/parser/parser.go:563-576 | the oldest go, one by one, and the last that went had no room |
| BoundedCache.Cache.Oldest | internal/parser/parser.go:564-571 | the scan finds an entry no other is older than |
| BoundedCache.NewestSurvives | internal/server/workspace_legacy.go:700-720 | an entry stored later than every other was used survives its own eviction |
| BoundedCache.SurvivorsAreNewest | internal/server/workspace_legacy.go:734-755 | what survives is cut off from what goes by one access time |
| SkillOperations.IdsDiffer | internal/server/workspace_skills.go:242-245 | ids of different operations differ, whatever their kinds |
| SkillOperations.Tracker.constructor | internal/server/workspace_skills.go:131-136 | an empty tracker |
| SkillOperations.Tracker.Enqueue | internal/server/workspace_skills.go:233-258 | returns the active operation on the same work if there is one and changes nothing, else appends a new one and trims |
| SkillOperations.Tracker.ActiveOperation | internal/server/workspace_skills.go:260-274 | finds an active operation on the same work if and only if there is one, in any order of the map |
| SkillOperations.Tracker.MarkRunning | internal/server/workspace_skills.go:311-317 | changes status and start time of this operation, in the list too, and nothing else |
| SkillOperations.Tracker.Finish | internal/server/workspace_skills.go:319-335 | no error means succeeded and the error text as it was, an error failed with its text; command, output and time are those given, the channel is closed, and no other operation changes |
| SkillOperations.Tracker.Snapshot | internal/server/workspace_skills.go:345-358 | all listed operations, newest first |
| SkillOperations.Tracker.TrimCompleted | internal/server/workspace_skills.go:360-376 | the deleting backward walk leaves the list the specification says, in the map and in the order |
| SkillOperations.CreateIsSound | internal/server/workspace_skills.go:233-258 | after an enqueue the order still names each map key once and the new operation is among them |
| SkillHistory.KeepIsNewest | internal/server/workspace_skills.go:360-376 | walking the order from its end keeps the active ones and exactly the newest completed ones |
| SkillHistory.TrimIsExact | internal/server/workspace_skills.go:360-376 | an operation survives trimming if and only if it is active or fewer than 50 completed ones come after it; the order of the others is kept |
| SkillRuns.StepKeepsInv | internal/server/workspace_skills.go:233-376 | each atomic step of a caller or worker keeps the invariant of lists, phases, locks and history |
| SkillRuns.ReachableInv | internal/server/workspace_skills.go:233-376 | so does every interleaving |
| SkillRuns.Safety | internal/server/workspace_skills.go:233-376 | at every point at most one operation runs, no two active ones do the same work, the order names each key once and holds all active ones, and a channel is closed once, when its operation has ended |
| SkillRuns.CallsJoin | internal/server/workspace_skills.go:233-274 | in every run a call makes nothing new if and only if an operation of the same kind and skill, for installs from the same source, is queued or running; otherwise it makes one, queued, with just what was asked for |
| SkillRuns.StatusMoves | internal/server/workspace_skills.go:311-335 | statuses only go from queued to running to succeeded or failed, and what was asked for never changes |
| SkillRuns.OutcomeIsTold | internal/server/workspace_skills.go:319-343 | in every run an operation has ended if and only if its outcome was recorded, once; it has then succeeded if and only if the command gave no error, and shows that command's error, output and time to whoever waits |
| SkillRuns.RecordedIsFinal | internal/server/workspace_skills.go:337-343 | whoever waits reads what was recorded at the end, however late and however much is trimmed meanwhile |
| SkillRuns.HistoryIsExact | internal/server/workspace_skills.go:233-376 | after each enqueue of new work, in every run, the list is exactly the active operations and the newest 50 of all ever completed |
| SkillRuns.WorkersProgress | internal/server/workspace_skills.go:276-302 | each step of a worker leaves one less to take |
| SkillRuns.SomeWorkerCanStep | internal/server/workspace_skills.go:276-302 | unless all workers are gone one of them can step: whoever holds the run lock can go on, and if nobody does a waiting worker can take it |
| SkillRuns.AllAreServed | internal/server/workspace_skills.go:276-302 | left alone the workers end every operation ever asked for and close each channel once |
| CheckpointTree.FoundIsStorable | internal/server/workspace_checkpoints.go:553-602 | what a capture stores has no file inside another and nothing in a skipped directory |
| CheckpointTree.SkippedAtAnyDepth | internal/server/workspace_checkpoints.go:689-697 | a file is left alone if and only if a directory above it, at any depth, has one of the sixteen names |
| CheckpointTree.FilesAre | internal/server/workspace_checkpoints.go:643-680 | after a restore the files are exactly the stored ones and, unchanged, those below such a directory |
| CheckpointTree.SkeletonIs | internal/server/workspace_checkpoints.go:683-686 | a directory stays if and only if it is in a skipped one or has a file or a skipped directory in it, at any depth |
| CheckpointTree.SkeletonIsWellFormed | internal/server/workspace_checkpoints.go:683-686 | removing unneeded directories leaves a tree |
| CheckpointTree.LongestFirstIsDeepestFirst | internal/server/workspace_checkpoints.go:681 | sorting by falling length of the path, in bytes or any other measure of names, puts every directory after those inside it |
| Checkpoints.Project.CreateCheckpoint | internal/server/workspace_checkpoints.go:553-617 | holds all small enough files walked before it stops, at most 5000 and 200 MiB, with a warning for each file left out, and stops only at a file that does not fit |
| Checkpoints.Project.Restore | internal/server/workspace_checkpoints.go:619-687 | succeeds if and only if no stored path is a directory now; then the files outside skipped directories are exactly the stored ones, those inside are untouched, and of the directories exactly the needed ones are left |
| Checkpoints.Project.RemoveOthers | internal/server/workspace_checkpoints.go:643-662 | removes exactly the found files that are not stored |
| Checkpoints.Project.RemoveEmptied | internal/server/workspace_checkpoints.go:683-686 | removing directories after those inside them leaves exactly those with a file or a skipped directory below |
| Checkpoints.CleanIfCapturable | internal/server/workspace_checkpoints.go:588-596 | a capture gives no warning if and only if no file the walk finds is over 10 MiB and together they are at most 5000 files and 200 MiB |
| Checkpoints.CleanCaptureIsWhole | internal/server/workspace_checkpoints.go:553-617 | it then holds everything the walk finds, and only then |
| Checkpoints.CheckpointEditRestore | internal/server/workspace_checkpoints.go:553-687 | capture, any edits, restore: the found files are exactly those of the capture's time if and only if the project's found files were within these limits before the capture |
| ProcessAncestry.NoWayOut | internal/server/workspace_browser.go:350-361 | from a set of processes closed under parents and without a root no chain leads to a root |
| ProcessAncestry.IsDescendant | internal/server/workspace_browser.go:346-363 | the loop ends on every table, cycles included, and says yes if and only if some chain of positive ids leads to a root |
| BoundedLog.File.Open | internal/boundedlog/file.go:43-47 | a file that is opened at or over the cap takes nothing more |
| BoundedLog.File.Write | internal/boundedlog/file.go:50-75 | always reports the full length; keeps what the file held, never grows past the cap, and holds the capped text as long as no write to the disk failed |
| BoundedLog.File.Close | internal/boundedlog/file.go:77-91 | closes, and does nothing the second time |
| BoundedLog.HoldsMore | internal/boundedlog/file.go:58-68 | the cap of a longer text is the cap of the text before, extended by what there is room for |
| BoundedLog.WriteAll | internal/boundedlog/file.go:50-91 | after any writes, a close, and any writes after it, the file is the first 768 KiB of what it held and what was sent before the close |
| BoundedLog.Prune | internal/boundedlog/file.go:120-130 | tries exactly the shortest oldest-first prefix that leaves fewer than 48 files and at most 16 MiB, failed removals still counted; it indexes an empty list if and only if the files that cannot be removed exceed 16 MiB |
| BoundedLog.PruneAll | internal/boundedlog/file.go:99-131 | when removing works the newest that fit stay: fewer than 48, at most 16 MiB, none older than one that went, and one more would be too many or too much |

## Left out

- TelegramSplitRun.SplitText: requires that the run on its text stops, since the source does not return for the others; which do is the subject of `BoundsAreExact`.
- TelegramSplitRun.NothingLost: for texts under the line bounds only; beyond them a repeated prefix can itself be cut and repeated, and the loop need not stop.
- TelegramSplitRun.FencesClosed: not for texts with a run of 3499 backticks or tildes, whose marker leaves no room in a message and which are cut into bare halves.
- TelegramSplitRun.FenceStateAtEnd: for cuts at line breaks and headers that are not fence lines; a cut inside a line changes what its halves open.
- TelegramSplit.SplitMarkdownChunk: requires a text over the limit, as its only caller guarantees.
- SkillOperations.Tracker.Finish: requires an open channel, because closing it again would panic; `SkillRuns` proves it is open.
- BoundedCache.Cache.Set: the caller's refusal of an empty list of messages is not modelled, nor how entry sizes are estimated.
- BoundedCache.Cache.Get: one class stands for both caches; their limits are the two constants, their fingerprints a type parameter.
- NativeHistoryCache.HistoryCache.Load: the two lock sections with nothing between them; what may come between is `HistoryCacheRuns`. Agent names, session ids and paths are taken as already normalised.
- HistoryCacheRuns.AllServedTimely: a transcript is read in one step, so a file that changes while it is being read is not modelled.
- ParserStream.LoadMessages: what a line or JSON object says is an arbitrary function, so the field-by-field extraction, the decoding of lines and the choice of files to try as structured JSON are not modelled; nor is its cache, which is `BoundedCache`.
- ParserVisit.SearchMessages: lower-casing and snippets; blank queries and missing files return before any message is read.
- TranscriptAround.SliceAround: Go's Atoi refuses numbers beyond 64 bits; here they are numbers outside the list, and so looked up as cursors all the same.
- TranscriptPaging.ChatSnapshot: reading and decoding stored events; the store is a list whose replay returns the last k entries. JSON sizes are an arbitrary function that may fail.
- Checkpoints.Project.CreateCheckpoint: the walk may be in any order, of which WalkDir's is one. Input and output errors, permissions, symbolic links and Git checkpoints are not modelled.
- Checkpoints.Project.Restore: the stored files are a map, so a checkpoint pruned meanwhile is not modelled, and neither is pruning by age.
- BoundedLog.Prune: takes the logs in the order the sort leaves them, for files of equal age any order.
- BoundedLog.File.Write: calls on a missing file.
- BroadcastProtocol.Safety: broadcasts take any time and do not fail; the websocket writing behind them is not modelled.
- SkillRuns.SomeWorkerCanStep: the tracker's own lock is held for one step at a time and never across steps, so it cannot be found taken; only the run lock can.
- SkillRuns.AllAreServed: the commands that install and uninstall are steps that end; running them, and the checks on names before, are not modelled.
- HTTP handlers, websockets, Telegram calls, rendering, Git, accounts, sidecar processes, secret redaction and path containment: plumbing or foreign code.
- Legacy chats, attachments and transcript indexes: conversions field by field.
- Bytes that are not valid UTF-8.
