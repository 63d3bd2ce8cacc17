# Domicile: what its algorithms keep

Domicile is a desktop whose shell, apps and settings are web pages. Most of it draws user interfaces or speaks to
Wayland and D-Bus. Between those parts are algorithms and protocols that have to be right for reasons no one function
shows. This project models them in Dafny and proves what they keep:

- **History paging** (`HistoryTypes`, `HistoryPage`, `Entries`, `Listing`, `FakeHistory`, `Paging`, `UseHistory`,
  `BrowsingRuns`). A page of browsing history is cut at the latest visit of its oldest result, and later pages are
  merged into the rows already listed. Paged loading gives what one unbounded page gives exactly when no visible page
  shares a visit time with another page; a visit tied with a cutoff belongs to neither page. The list's state machine
  is followed over whole runs of loads, reloads, late answers, removals and failures, over a history that changes
  meanwhile.
- **Resize pacing** (`ConfigureAnswers`, `PacedResizes`). A client's unanswered size changes are counted, a resize
  waits behind three of them, and a timer lets it go. `ConfigureAnswers` is the object; `PacedResizes` its runs under
  the compositor's calling discipline, with the log of everything sent.
- **Import graphs** (`ImportGraph`). A worklist whose visited test happens when a file is pushed, so a file can be on
  the stack twice. It ends because the stack is last in, first out.
- **The chrome hub** (`ChromeHub`, `HubRuns`, `HubRest`, `HubTheme`, `HubStale`). The Wayland thread, one writer
  thread and two threads a connection share three kinds of lock and a queue. The model is a state machine over their
  atomic steps; it never deadlocks, and once nothing new happens it always comes to rest with every chrome showing the
  host's desktop. The theme can end up old on a page: exactly the steps that may leave it so are told apart, with runs
  that do.
- **Web IDL** (`WebIdl`, `WebIdlParser`, `WebIdlTokens`, `WebIdlComments`, `WebIdlPrinter`, `WebIdlText`,
  `WebIdlRoundTrip`, `WebIdlLayout`, `WebIdlImage`, `WebIdlSource`). The parser for a subset of section 2 of the
  WHATWG Web IDL Standard, from source text to definitions. `WebIdl` says what parsing gives; `WebIdlParser` and
  `WebIdlTokens` are the loops over a position, proved to give it. A printer and a layout, which the repository does
  not have, are the parser's inverse: the definitions some source has are exactly those that can be printed.
- **The frame codec** (`FrameCodec`), **argv quoting** (`Argv`), **config documents** (`ConfigDocument`), **the
  editor's Tab and Shift+Tab** (`Editing`), **shell options** (`Options`), **client damage** (`ClientDamage`), **the
  dictionaries a page reads** (`ReadDictionaries`) and **global shortcuts** (`GlobalShortcuts`).

`Basics` holds lists, options and results. `dafny verify dfyconfig.toml` checks everything.

## What is not quite so

Some things the code or its comments suggest do not hold as they stand. Each has a lemma that says exactly when they
do.

- Paging loses a visit at the same time as another page's visit when it falls on a cutoff
  (`Paging.PagingIsWholeExactly`, `Paging.TieIsLost`).
- A history list whose first load fails is empty and counts as complete (`BrowsingRuns.FailedLoadLooksComplete`). A
  complete list is whole exactly when nothing has failed, or it has a row, or there was nothing to show
  (`BrowsingRuns.CompleteIsWhole`).
- A row that is removed, visited again and loaded again while it is still leaving goes from the list once it has left,
  though the history has it (`BrowsingRuns.ReturnedRowIsLost`, `BrowsingRuns.SettlesExactly`). That a reload waits
  longer than a row takes to leave is all that prevents it.
- A chrome can end up with an old theme that nothing corrects: an answer carries the theme as it was when the answer
  was made, and of two threads that set it the first may queue it last (`HubStale.AnswerComesLate`,
  `HubStale.ThemesSwap`). `HubTheme.StepKeepsThemeExactly` says which steps do that, and no other does.
- Shift+Tab does not undo Tab for a selection that starts at 0 before a line break the text begins with: the search
  for the line break before the selection starts at 0, not before it (`Editing.OutdentUndoesIndent`).
- A config value written at an array index past the end goes to the end, so it is not read back and a second write
  does not replace it (`ConfigDocument.ReadWhatWasWritten`, `ConfigDocument.LastWriteWins`). One written and then
  removed leaves a trace there, and when an empty section, a value of another kind or a missing array is on its path
  (`ConfigDocument.WriteThenRemove`). A write can lose values on other paths when it puts a section where a filled
  array is, or an array where a filled section is (`ConfigDocument.OtherPathsKept`).
- A frame's length has 32 bits; a longer body is cut (`FrameCodec.ReadBackExactly`).
- The damage box is larger than the damage on the buffer when a rectangle off the buffer sticks out, to any side,
  beyond all that are on it (`ClientDamage.LeastExactly`, `ClientDamage.OffBufferCounts`).

The Web IDL parser looks type names up in a JavaScript object, so a type named like a property every object has, as
`toString`, is refused. The model does the same (`WebIdl.INHERITED`), and such a name cannot be printed.

## Model

| member | source | states |
|---|---|---|
| HistoryPage.LoadPage | packages/app-history/src/history-page.ts:71-103 | a full page's `next` is strictly before its `endTime`, whatever the source answers; with it `LoadSince` ends |
| Listing.LoadPageLists | packages/app-history/src/history-page.ts:71-103 | from a source that keeps its promises, a page holds exactly the rows of its results in the window from `next` to `endTime`, newest first; `next` is missing exactly when there were fewer results than asked for, and no page left out has a later visit than it |
| Listing.ByDayLists | packages/app-history/src/history-page.ts:130-139 | the rows of one result are one per day with a visit in the window, each with all of that day's visits in order |
| Listing.RowTime | packages/app-history/src/history-page.ts:36-48 | a row's time is one of its page's visits, in the window and on the row's day |
| Entries.AppendIds | packages/app-history/src/entries.ts:12-27 | appending a page lists an id exactly when the loaded rows or the page did |
| Entries.AppendKeepsDistinct | packages/app-history/src/entries.ts:12-27 | no id is listed twice after appending |
| Entries.GroupsInOrder | packages/app-history/src/entries.ts:30-34 | rows whose days descend keep their order under their day headers, none lost |
| Entries.HeadersDescend | packages/app-history/src/entries.ts:30-34 | the day headers descend, each day once |
| Paging.LoadPageShows | packages/app-history/src/history-page.ts:71-103 | without shared times, a page shows everything from its `next` up to its `endTime`: the cutoff leaves nothing out |
| Paging.AllListed | packages/app-history/src/history-page.ts:86-103 | the cutoff argument: a page the search left out has no visit from the cutoff on, unless it shares a time |
| Paging.AppendShows | packages/app-history/src/entries.ts:12-27 | merging the rows of a window into the rows of the window above it gives the rows of both: ids, ascending visits, latest time and order |
| Paging.ShowsOnce | packages/app-history/src/history-page.ts:36-48 | a window of the history has only one list |
| Paging.UnboundedIsWhole | packages/app-history/src/history-page.ts:71-103 | one page larger than the history loads all of it |
| Paging.PagingIsWhole | packages/app-history/src/history-page.ts:71-103 | appending pages of any size from 1 until `next` is missing gives the same list as one unbounded page |
| Paging.PagingIsWholeExactly | packages/app-history/src/history-page.ts:71-103 | that holds for every source and page size if and only if no visible page shares a visit time with another page |
| Paging.TieIsLost | packages/app-history/src/history-page.ts:86-103 | for every such tie there is a source that keeps its promises and, paged by one result, loses the visit |
| Paging.LoadSinceShows | packages/app-history/src/history-page.ts:109-127 | `loadSince` shows exactly the visits from its final `next` on, which is not after `until`, so everything since `until` is there |
| Paging.ShownUnderDays | packages/app-history/src/entries.ts:30-34 | with a clock whose days come in order, a loaded list keeps its order under descending day headers |
| FakeHistory.FakeServes | packages/app-history/src/fake-history.ts:20-44 | the fake history keeps what a search promises, for every text, time and limit, so every paging result holds of it |
| FakeHistory.RankedPages | packages/app-history/src/fake-history.ts:20-44 | its ranking holds each page with a visit before the time once, by its latest such visit |
| UseHistory.RunInv | packages/app-history/src/useHistory.ts:79-267 | in every run, ids stay distinct, a removed row still listed is marked leaving, and the list loads exactly while an answer that counts is due |
| UseHistory.StaleMightNotHaveCome | packages/app-history/src/useHistory.ts:83-127 | after any run the list is as it would be had no answer or failure of a load that another has replaced ever come |
| UseHistory.GoneStaysGone | packages/app-history/src/useHistory.ts:185-215 | a removed row that has gone does not come back with any page until a load replaces the list |
| UseHistory.FetchedDistinct | packages/app-history/src/useHistory.ts:147-183 | what a load, a further page or a reload brings has each row once, shared times or not |
| BrowsingRuns.RunFaithful | packages/app-history/src/useHistory.ts:83-215 | through every run of loads, further pages, reloads, removals, failures and late answers, with rows deleted from the history and visits added to it meanwhile, the list without the rows being deleted shows exactly what is left of the history of its last load, from its `next` up to the time that load asked for |
| BrowsingRuns.ReplacedShows | packages/app-history/src/useHistory.ts:129-156 | once a load or a reload is accepted, the list shows the history that was read, whatever it was before and whatever was removed |
| BrowsingRuns.MergedStay | packages/app-history/src/useHistory.ts:257-267 | leaving rows out and merging a page give the same rows in either order |
| BrowsingRuns.SettlesExactly | packages/app-history/src/useHistory.ts:209-215 | dropping a row leaves the list right if and only if its deletion has begun or it is not on the list |
| BrowsingRuns.ReturnedRowIsLost | packages/app-history/src/useHistory.ts:97-112 | a run in which a row the history has is dropped, since a reload keeps it leaving |
| BrowsingRuns.CompleteIsWhole | packages/app-history/src/useHistory.ts:233 | after any such run, a complete list without the rows being deleted is one unbounded page of the history as it is then, at the time last asked for, if and only if nothing has failed, or it has a row, or no visible page was visited before that time |
| BrowsingRuns.FailedLoadLooksComplete | packages/app-history/src/useHistory.ts:115-123 | a first load that fails leaves an empty list that counts as complete |
| ConfigureAnswers.ConfigureAnswers.Resize | packages/domicile-compositor/src/configure_answers.rs:89-101 | the whole new state and whether the resize is sent, waits with its deadline, or takes the waiting one's place |
| ConfigureAnswers.ConfigureAnswers.Sent | packages/domicile-compositor/src/configure_answers.rs:105-115 | the whole new state: the box is queued and a change of size counts as unanswered |
| ConfigureAnswers.ConfigureAnswers.Committed | packages/domicile-compositor/src/configure_answers.rs:119-128 | the whole new state, and the waiting resize exactly when the ack answered a size change |
| ConfigureAnswers.ConfigureAnswers.Drew | packages/domicile-compositor/src/configure_answers.rs:134-142 | the newest resize is told again exactly when it was acked, drawn at another size and not told again before |
| ConfigureAnswers.ConfigureAnswers.Overdue | packages/domicile-compositor/src/configure_answers.rs:145-151 | the waiting resize goes exactly when giving up on overdue changes makes room |
| ConfigureAnswers.ConfigureAnswers.GiveUpOnOverdue | packages/domicile-compositor/src/configure_answers.rs:156-158 | of the unanswered changes just those younger than the patience stay, and when none is older than one before it they are the end of the list |
| ConfigureAnswers.ConfigureAnswers.OldestUnansweredWhenFull | packages/domicile-compositor/src/configure_answers.rs:161-166 | a time if and only if three are unanswered; it is that of an unanswered change, and none is older when the list is in time |
| ConfigureAnswers.ConfigureAnswers.Answered | packages/domicile-compositor/src/configure_answers.rs:171-184 | the box of the last queued serial not above the ack, forgetting those before it, or the box shown last |
| ConfigureAnswers.ConfigureAnswers.SizeOfBox | packages/domicile-compositor/src/configure_answers.rs:187-192 | a size if and only if a queued box has that number, and then that of the first that has |
| ConfigureAnswers.LastAtMost | packages/domicile-compositor/src/configure_answers.rs:171-184 | the answer is the last serial not above the ack: all after it are above |
| ConfigureAnswers.BoxSize | packages/domicile-compositor/src/configure_answers.rs:187-192 | a size is found exactly when the queue holds the box |
| PacedResizes.NewestIsNeverLost | packages/domicile-compositor/src/configure_answers.rs:89-101 | in every reachable state the newest size asked for is the newest sent or the one waiting; one waits only behind exactly three unanswered changes with a timer armed for the oldest |
| PacedResizes.TimerSendsTheWaiting | packages/domicile-compositor/src/configure_answers.rs:145-151 | that timer, when it fires, sends the waiting resize and leaves none waiting |
| PacedResizes.AtMostThreeAtOnce | packages/domicile-compositor/src/configure_answers.rs:89-115 | never more than three unanswered size changes; while no commit answers one, changes three apart are a patience apart, so no window that long holds four |
| PacedResizes.AnswersAsIfNothingForgotten | packages/domicile-compositor/src/configure_answers.rs:171-184 | while acks do not go back, the pruned queue answers as one that never forgets |
| PacedResizes.AnswersGoForward | packages/domicile-compositor/src/configure_answers.rs:171-184 | an answer never goes back to an earlier box or to the box shown last |
| PacedResizes.AnsweredSize | packages/domicile-compositor/src/configure_answers.rs:187-192 | the size of an answered box is known exactly for a box sent, and is the size it was sent with |
| PacedResizes.SizesAreSent | packages/domicile-compositor/src/configure_answers.rs:187-192 | a box in the queue has the one size it was sent with, and the box shown last has none |
| PacedResizes.ToldAgainOnce | packages/domicile-compositor/src/configure_answers.rs:134-142 | over every run, each resize is told again at most once, and never an older after a newer |
| PacedResizes.RunKeeps | packages/domicile-compositor/src/engine_pump.rs:146-163 | every allowed run of layouts, draws, commits, timers and answers keeps all of the above |
| ImportGraph.ImportGraph | packages/domicile-builder/src/graph.ts:47-75 | the walk ends; it succeeds exactly when the entry exists and every relative import of every file reached names a file; its files are then exactly those reached and its packages exactly what they import; a failure names the file or import at fault |
| ImportGraph.ScanImports | packages/domicile-builder/src/graph.ts:57-72 | one file's imports: what is pushed, the packages, or the first import that names no file |
| ImportGraph.PoppedAgain | packages/domicile-builder/src/graph.ts:50-60 | a file popped a second time pushes nothing, since all it imports was above its first visit and has been read: the measure that ends the walk |
| ImportGraph.Finished | packages/domicile-builder/src/graph.ts:74 | with an empty stack the files read are those reached |
| ImportGraph.Resolved | packages/domicile-builder/src/graph.ts:97-112 | what an import resolves to can be read |
| ImportGraph.FirstOnDisk | packages/domicile-builder/src/graph.ts:97-112 | the first suffix in order that names a file, or none exactly when no suffix does |
| ImportGraph.PackageOfSubpath | packages/domicile-builder/src/graph.ts:84-89 | a package, scoped or not, is named by its own name and by every subpath of it |
| ImportGraph.MergedReaches | packages/domicile-builder/src/graph.ts:78-81 | the merged graph holds exactly what some entry reaches, with its text, and the packages those files import |
| HubRuns.AcquiresInOrder | packages/domicile-compositor/src/chrome_connection.rs:257-592 | every thread asks only for locks above those it holds, in the order chromes, writer, host |
| HubRuns.NoWaitCycle | packages/domicile-compositor/src/chrome_hub.rs:154-205 | no threads wait for each other in a cycle |
| HubRuns.StepExclusive | packages/domicile-compositor/src/chrome_hub.rs:278-308 | no step makes two threads hold one lock |
| HubRuns.NeverDeadlocks | packages/domicile-compositor/src/chrome_connection.rs:44-98 | in every reachable state, a thread that waits for a held lock has a holder of a lock that can step |
| HubRuns.ListedOnceWhileJoined | packages/domicile-compositor/src/chrome_connection.rs:290-358 | a writer is in the broadcast list at most once, only while its connection has joined, and never an app's |
| HubRuns.ShownOrComing | packages/domicile-compositor/src/chrome_connection.rs:69-98 | at every moment a listed, answered chrome shows the host's desktop, or displays carrying it are being written, queued or about to be queued |
| HubRuns.AtRestAllShowTheDesktop | packages/domicile-compositor/src/chrome_connection.rs:69-98 | at rest, under every interleaving, every listed chrome was answered and shows the host's current desktop |
| HubRest.SomethingGoesOn | packages/domicile-compositor/src/chrome_connection.rs:44-98 | unless everything is done, some thread can go on with what it had begun |
| HubRest.GoingOnLeavesLess | packages/domicile-compositor/src/chrome_connection.rs:257-592 | every step with which a thread goes on leaves less to do, however many messages it tells and whichever writes fail |
| HubRest.EveryRunComesToRest | packages/domicile-compositor/src/chrome_connection.rs:69-98 | once nothing new happens, every run from every reachable state, in whatever order its threads step, comes to a state in which all are done and every listed chrome shows the desktop |
| HubTheme.StepKeepsThemeExactly | packages/domicile-compositor/src/chrome_connection.rs:84-87 | a step keeps that the last theme to come is the host's and that every listed chrome has it, is answered with a theme or has one coming, if and only if it neither queues an old theme last nor answers a listed chrome with an old theme after which none comes |
| HubTheme.AtRestThemeKept | packages/domicile-compositor/src/chrome_hub.rs:154-175 | at rest, that is so if and only if every listed chrome shows the host's theme |
| HubTheme.AtRestAllShowTheTheme | packages/domicile-compositor/src/chrome_hub.rs:146-175 | after every run without such a step, however its threads interleave, every listed chrome shows the host's theme at rest |
| HubStale.AnswerComesLate | packages/domicile-compositor/src/chrome_connection.rs:290-320 | a run to rest in which the theme is set and broadcast between reading a hello and joining the list, so that a listed chrome keeps the old theme |
| HubStale.ThemesSwap | packages/domicile-compositor/src/chrome_hub.rs:154-161 | a run to rest in which two threads set the theme and queue it in the other order, so that a listed chrome keeps the old theme |
| HubRuns.StepConverges | packages/domicile-compositor/src/chrome_hub.rs:208-210 | every step of every thread keeps that the last displays to come carry the current desktop |
| WebIdlTokens.Tokenize | packages/chrome-sdk/codegen/parse-webidl.ts:128-152 | the loop gives the tokens, each with its line and the comments above it, or the line of what is no token |
| WebIdlTokens.TokenizedAreTokens | packages/chrome-sdk/codegen/parse-webidl.ts:9-10 | every token is a whole word, string, number or punctuation, and every comment one line |
| WebIdlTokens.TokenIsLexeme | packages/chrome-sdk/codegen/parse-webidl.ts:9-10 | a token with a space after it is read as it is |
| WebIdlTokens.NumbersAreDecimals | packages/chrome-sdk/codegen/parse-webidl.ts:9-10 | a token is a number if and only if it is digits, perhaps a point with digits after it, and perhaps a minus sign before |
| WebIdlComments.MemberDocRead | packages/chrome-sdk/codegen/parse-webidl.ts:167-193 | trimmed lines right above a member are its documentation |
| WebIdlComments.DefinitionDocRead | packages/chrome-sdk/codegen/parse-webidl.ts:158-193 | any lines at all can be laid out above a definition, in paragraphs, to be its documentation |
| WebIdlComments.LastBlockRead | packages/chrome-sdk/codegen/parse-webidl.ts:167-193 | only the last block of comments documents a member, whatever blocks are further up |
| WebIdlComments.LicenseIsDropped | packages/chrome-sdk/codegen/parse-webidl.ts:158-164 | a license header above any documentation is left out of it |
| WebIdlParser.ParseWebIdl | packages/chrome-sdk/codegen/parse-webidl.ts:98-126 | on any tokens the parser ends, with the definitions of all of them or the refusal that parsing them gives |
| WebIdlParser.ParseInterface | packages/chrome-sdk/codegen/parse-webidl.ts:195-248 | the loops and branches read what the grammar says, and leave what it leaves |
| WebIdlParser.ParseMember | packages/chrome-sdk/codegen/parse-webidl.ts:205-244 | one member, a constructor dropped |
| WebIdlParser.ParseHandlerName | packages/chrome-sdk/codegen/parse-webidl.ts:251-259 | the event a handler is for, refusing a name without its `on` |
| WebIdlParser.ParseDictionary | packages/chrome-sdk/codegen/parse-webidl.ts:261-294 | a dictionary and its members, as the grammar says |
| WebIdlParser.ParseEnum | packages/chrome-sdk/codegen/parse-webidl.ts:296-309 | an enum and its values, as the grammar says |
| WebIdlParser.ParseArguments | packages/chrome-sdk/codegen/parse-webidl.ts:321-341 | the loop over arguments reads what the grammar says |
| WebIdlParser.ParseType | packages/chrome-sdk/codegen/parse-webidl.ts:343-374 | types and their argument, recursing only over tokens left |
| WebIdlParser.ParseTypeName | packages/chrome-sdk/codegen/parse-webidl.ts:353-363 | the words of a type, refusing names every object has |
| WebIdlParser.ParseDefault | packages/chrome-sdk/codegen/parse-webidl.ts:377-384 | a default value is passed over |
| WebIdlParser.Parser.SkipExtendedAttributes | packages/chrome-sdk/codegen/parse-webidl.ts:450-456 | everything through the next `]` is passed over, or nothing |
| WebIdl.Definitions | packages/chrome-sdk/codegen/parse-webidl.ts:98-126 | parsing that succeeds has consumed every token |
| WebIdlRoundTrip.PrintedIsParsed | packages/chrome-sdk/codegen/parse-webidl.ts:98-126 | parsing the tokens printed for any well-formed interfaces, dictionaries and enums gives them back, documentation and all |
| WebIdlRoundTrip.TypeParsed | packages/chrome-sdk/codegen/parse-webidl.ts:343-374 | a printed type is read back, and what follows it is left |
| WebIdlRoundTrip.AttributesAreSkipped | packages/chrome-sdk/codegen/parse-webidl.ts:450-456 | extended attributes are passed over, whatever is in them but a `]` |
| WebIdlRoundTrip.ConstructorIsDropped | packages/chrome-sdk/codegen/parse-webidl.ts:208-213 | a constructor with any arguments adds no member |
| WebIdlImage.ParsedCanBePrinted | packages/chrome-sdk/codegen/parse-webidl.ts:98-126 | whatever is parsed from tokens is well-formed |
| WebIdlText.TextRead | packages/chrome-sdk/codegen/parse-webidl.ts:128-152 | tokenizing the text written for laid out tokens gives them back, lines and comments too |
| WebIdlLayout.PrintWritten | packages/chrome-sdk/codegen/parse-webidl.ts:128-152 | the tokens printed for well-formed definitions are whole tokens on lines that do not go back, as the tokenizer gives them |
| WebIdlSource.ParseSource | packages/chrome-sdk/codegen/parse-webidl.ts:98-152 | the tokenizer and the parser together do what tokenizing and parsing say |
| WebIdlSource.WrittenIsParsed | packages/chrome-sdk/codegen/parse-webidl.ts:98-152 | parsing the text written for any well-formed definitions gives them back |
| WebIdlSource.SourcesHaveWhatCanBePrinted | packages/chrome-sdk/codegen/parse-webidl.ts:98-152 | definitions are well-formed if and only if some source has them |
| FrameCodec.EncodeFrame | packages/component-library/src/app-host-frames.ts:9-15 | the array filled is the length's four bytes, lowest first, and the body |
| FrameCodec.Joined | packages/component-library/src/app-host-frames.ts:50-55 | a new array with the bytes of both |
| FrameCodec.FrameDecoder.Decode | packages/component-library/src/app-host-frames.ts:22-38 | the messages of the held bytes and the chunk, and what is held after them |
| FrameCodec.Held | packages/component-library/src/app-host-frames.ts:22-38 | what a decoder holds is never a whole frame |
| FrameCodec.ChunksDoNotMatter | packages/component-library/src/app-host-frames.ts:22-38 | however a stream is cut, the outputs together are the stream's messages and what is held is the same |
| FrameCodec.SentArrive | packages/component-library/src/app-host-frames.ts:9-38 | bodies below 2^32 bytes sent as frames arrive as they were sent, in order, with nothing left |
| FrameCodec.BytesKept | packages/component-library/src/app-host-frames.ts:22-38 | every stream of bytes is the frames of its messages and what is held: nothing lost or made up |
| FrameCodec.ReadBackExactly | packages/component-library/src/app-host-frames.ts:9-48 | bodies are read back if and only if each is shorter than 2^32 bytes |
| Argv.SplitArgv | packages/app-settings/src/argv.ts:24-60 | the loop over characters gives what the quoting rules give |
| Argv.ArgvReadBack | packages/app-settings/src/argv.ts:11-60 | a joined argv splits to itself if and only if it names a program, whatever quotes, backslashes and spaces it has |
| Argv.RewrittenReadsTheSame | packages/app-settings/src/argv.ts:11-60 | a line that splits, joined again, splits to the same argv |
| Argv.LinesReadApart | packages/app-settings/src/argv.ts:24-60 | two good lines with a space between them split to the words of both |
| Argv.NoProgramInSpace | packages/app-settings/src/argv.ts:24-60 | a line is refused for naming no program if and only if it is all white space |
| Argv.UnclosedIsRefused | packages/app-settings/src/argv.ts:53-54 | a good line with an open quote or a backslash at its end is refused as unclosed |
| Argv.WordScanned | packages/app-settings/src/argv.ts:11-17 | a written argument is read as one word, empty ones too |
| ConfigDocument.ReadWhatWasWritten | packages/app-settings/src/config-document.ts:26-51 | a value written is read back if and only if no array index on its path is past the end |
| ConfigDocument.LastWriteWins | packages/app-settings/src/config-document.ts:40-51 | a write or removal after a write is as if the first had not been, if and only if no array index on the path is past the end |
| ConfigDocument.WritingItBackChangesNothing | packages/app-settings/src/config-document.ts:26-51 | writing the value already there gives the same document |
| ConfigDocument.OtherPathsKept | packages/app-settings/src/config-document.ts:72-112 | every path that parts from the one written keeps its value if and only if no index is past the end and no filled array or section is replaced by the other |
| ConfigDocument.WriteThenRemove | packages/app-settings/src/config-document.ts:40-116 | writing and then removing restores the document if and only if no array index on the path is past the end and nothing was there, with no empty section, other value or missing array on the way |
| ConfigDocument.RemovedFromNothing | packages/app-settings/src/config-document.ts:72-116 | a removal below what is missing makes an empty section if and only if no array index is on the way |
| Editing.IndentMarks | packages/app-settings/src/editing.ts:11-29 | Tab puts an indentation before each line the selection touches and nothing else, and moves both ends with it |
| Editing.OutdentUndoesIndent | packages/app-settings/src/editing.ts:11-49 | Shift+Tab after Tab on a selection gives back text and both ends if and only if it does not start at 0 before a line break the text begins with |
| Editing.OutdentStaysInside | packages/app-settings/src/editing.ts:32-49 | Shift+Tab leaves a selection of the text it leaves, for every edit |
| Editing.OutdentTakesSpaces | packages/app-settings/src/editing.ts:32-49 | Shift+Tab takes nothing but spaces |
| Editing.LinesStart | packages/app-settings/src/editing.ts:64-70 | the lines a selection touches start in order, each after the first right after a line break in it |
| Options.EveryValueIsAccepted | packages/chrome-sdk/src/options.ts:204-253 | with accepted defaults, every option has a value its own check accepts, at every depth, and there are no others |
| Options.ValueOfEachOption | packages/chrome-sdk/src/options.ts:220-227 | each option has the given value if its check accepts it, and its default otherwise |
| Options.NumberProblem | packages/chrome-sdk/src/options.ts:359-373 | a number is refused exactly when it is outside a limit that is given |
| Options.DroppedAreReported | packages/chrome-sdk/src/options.ts:300-349 | one line for each value refused, group that is no group and unknown key, with its place and reason, and no other line |
| Options.ReadingAgainChangesNothing | packages/chrome-sdk/src/options.ts:204-214 | reading what was read gives the same values and drops nothing |
| ClientDamage.SurfaceDamage.TakeDamage | packages/domicile-compositor/src/client_damage.rs:31-33 | the bounds of the damage collected, which is empty after |
| ClientDamage.ReportedIsInside | packages/domicile-compositor/src/client_damage.rs:41-73 | with scaled locations at least -B, the box holds every reported pixel that is not negative and below `i32::MAX` - B |
| ClientDamage.OrderDoesNotMatter | packages/domicile-compositor/src/client_damage.rs:41-73 | damage reported in any other order has the same box |
| ClientDamage.SizesDoNotOverflow | packages/domicile-compositor/src/client_damage.rs:62-72 | the last subtractions stay in 32 bits |
| ClientDamage.LeastWhenAllOnBuffer | packages/domicile-compositor/src/client_damage.rs:57-72 | when every box has pixels on the buffer, the region is the least that holds them |
| ClientDamage.LeastExactly | packages/domicile-compositor/src/client_damage.rs:57-72 | for any damage that does not saturate, there is no region exactly when nothing reported has a size, and the region is the least that holds every reported pixel that is not negative if and only if no rectangle off the buffer sticks out further than those on it, or, with none on it, all are left of it or all above it |
| ClientDamage.BoxesAreReported | packages/domicile-compositor/src/client_damage.rs:41-61 | when nothing saturates, the boxes hold exactly the reported pixels |
| ClientDamage.OffBufferCounts | packages/domicile-compositor/src/client_damage.rs:57-72 | two rectangles, one off the buffer, whose region is not the least |
| ReadDictionaries.ReadDictionaries | packages/chrome-sdk/codegen/webidl-to-typescript.ts:104-136 | the least set with each dictionary an operation returns and each its dictionaries hold; a failure names, in order, exactly those of that one set that are also the type of an argument |
| ReadDictionaries.Reader.Visit | packages/chrome-sdk/codegen/webidl-to-typescript.ts:109-120 | a visit ends, and adds what a type names, closed under what that holds, and no more |
| GlobalShortcuts.Grabber.Heard | packages/chrome-sdk/src/global-shortcuts.ts:33-56 | the chords tried are those listed, a chord listed before keeps its grab, each other is tried once, and each fires its shortcuts in order |
| GlobalShortcuts.Grabber.Stop | packages/chrome-sdk/src/global-shortcuts.ts:69-79 | the engine's grabs are those others made |
| GlobalShortcuts.ByChord | packages/chrome-sdk/src/global-shortcuts.ts:52-55 | the ids of each chord, in the order listed |
| GlobalShortcuts.RunAndStop | packages/chrome-sdk/src/global-shortcuts.ts:31-80 | whatever lists come, whichever grabs fail and whatever others grab meanwhile, stopping leaves each chord's grab count as others left it |

## Left out

- History: times are integers, of which only the order is used; `startOfDay` is a parameter; an id is a day and a URL
  rather than their text; promises are answers from a history that does not change while it is read.
- `fakeHistory` throws for the visits of an unknown page, where the model has none; `fakeBrowser` is left out.
- React's rendering and stale closures: each handler of `useHistory` is one step that reads the current state, on
  values rather than in a class.
- BrowsingRuns.RunFaithful: asks that, of what was visited before the last load, further pages see only rows being
  removed change; any other change shows with the next reload (`BrowsingRuns.ReplacedShows`). It asks for histories
  without shared times, for the reason `Paging.PagingIsWholeExactly` gives.
- `ConfigureAnswers`: serials are integers that do not wrap around as Smithay's do, and durations are whole
  milliseconds.
- `ImportGraph`: the path functions and the import scanner are parameters, the disk is a finite map, and the order of
  the graph's files is not kept.
- The chrome hub is a state machine on values, not objects with mutexes: a step is what a thread does between two
  points where others can act. `Host`, `apply_chrome_message` and `set_output` stand for any change of the desktop
  under the host lock. Other locks are leaves; sockets never block; the value of the flag for syncing frames is not
  kept, and a connection has one thread for system calls. The other state messages of a handshake go the theme's way
  and are not told apart.
- WebIdl: error messages are data rather than text. The generator that writes TypeScript is left out but for
  `ReadDictionaries`.
- FrameCodec: a body is bytes; parsing it as JSON, and what happens when that fails, is left out.
- Argv and Editing: a text is a sequence of characters, so positions are not UTF-16 units outside the basic plane;
  Enter is left out.
- ConfigDocument: the order of keys, `JSON.parse`, negative and fractional indexes, and keys every JavaScript object
  inherits are left out.
- Options: the lines dropped are data with a path rather than sorted text; given numbers are finite;
  `watchShellOptions` and the schema of declarations are left out.
- ClientDamage.LeastExactly: asks that no position or size saturates, because a box that saturates no longer holds
  just what was reported; `ClientDamage.LeastBoundsExactly` says the same of any boxes, saturated or not.
- GlobalShortcuts: the subscriptions and the order in which stale chords are given back.
- React components, styles, generated types, D-Bus, portals, casting, idle, lock, the clipboard's pipes and GPU
  buffers: user interface, declarations or services with no algorithm of this kind.
