# Verified models of clide's native runners, command-line client and parsers

clide keeps one tray icon for all its windows: a headless loader process owns the icon, every window is a
process of its own, and the two sides talk over the session bus. Loaders die, are started again and come
back empty. The command-line client speaks JSON over a socket whose name is a hash, through bounded buffers
and a scanner of a few lines. Around them stand small parsers and decoders: diffs, coverage files, the git
log and status, the tab index of the workspace panel, the Windows tray payloads and the icon crop. This
project models that code and proves what it promises, and, where it does not keep a promise, exactly when.

| files | what they model |
| --- | --- |
| `TrayLoaderSpec`, `TrayLoader`, `TrayLoaderFacts`, `TrayLoaderHistory` | the Linux loader as a state machine; its handlers and loops as a class proved against it; what every run of one loader keeps; its whole state and all it sends, read off what has happened to it |
| `TrayBridgeSpec` | the window side, as a state machine and as a class proved against it |
| `TrayProtocol` | windows, loaders and the bus together: one FIFO queue per connection and direction, atomic ownership of the loader's name, a clock, and processes that start, act, stall and die at any moment |
| `TrayInvariant`, `TrayWindowSteps`, `TrayTheorems`, `TrayHidden`, `TrayActs`, `TrayClicks`, `TraySettles`, `TrayLabels`, `TrayCounterexamples` | the inductive invariant of the protocol, what follows over every run, when a hidden window is lost, what a window makes of calls and acts, what a click comes to once all is delivered, that deliveries run out, a second invariant for the menu labels, and reachable states that break what the design record and the comments promise |
| `Json` | the reference the client is measured by: RFC 8259 texts without insignificant white space, their grammar, a parser proved to undo the text of every value, and the meaning of string literals |
| `ClideRequest`, `ClideEnvelope` | `json_escape` and `build_request` over a `char` buffer, and what a reader of the request gets |
| `ClideScan`, `ClideRoot`, `Fnv` | `json_value`, `find_workspace_root` and the socket name |
| `DiffParse`, `DiffBuild` | reading unified diffs, and building a diff from opcodes |
| `Lcov`, `LcovLaws`, `LcovGate` | the coverage merge, its algebraic laws, and the sums the gate reads off it |
| `GitLog`, `GitStatus` | the decoders of `git log` and `git status` |
| `Workspace` | the tab registry, the panes and the file index |
| `WindowsTray`, `IconCrop` | the Windows loader's payloads, label map and menu; the crop of the tray mark |
| `Common`, `Text` | an option type; splitting, joining, numerals and white space |

Code that changes state in the source is a class or a loop here, proved equal to a function on values; the
theorems are about those functions.

## What does not hold, and when it does

* **A hidden window can be lost.** Decision D-110 (`governance/decisions/architecture.md:582`) says that a
  window must never become unreachable. A window that is hidden behind a tray stays hidden when it hears that
  the tray is gone (`StrandedIff`), and when it hears that the loader is gone it starts none exactly when it
  is quitting or within the back-off of its last attempt (`LosesLoaderIff`). A window lost in this way stays
  lost until somebody else starts a loader or its own side shows it (`StaysLost`); `HiddenWindowIsLost` is
  such a run.
* **The first frame goes untold.** The show of the first frame does not go through the bridge, so the
  loader's row says "hidden" until the window tells something else (`FirstFrameGoesUntold`). Nothing else goes
  untold (`NothingElseIsSilent`), and `RowsAgree` is an equivalence for that reason. A click on the icon can
  then show windows that are all visible (`ClickShowsVisibleWindow`, `ToggleFollowsWindows`).
* **Availability can lag.** A watcher that leaves with a question unanswered and comes back is recorded as
  having a host without anyone being told (`AvailabilityCanLag`). `LagIff` says when the lag begins and what
  ends it: an answer, the watcher's departure, or any signal of the watcher but that of a leaving host.
* **Menu ids can clash**, exactly when two live rows were created a non-zero multiple of 999 apart
  (`MenuIdsDistinctIff`), and they do after 1000 windows of which the first and the last are alive
  (`ClashIsReached`).
* **The comment in `quit_all`** says that a hanging window does not keep the icon up. The timer it arms ends
  the loader only on an empty list (`EndingIff`), so a hanging window does keep it up
  (`HangingWindowKeepsLoader`).
* **`json_value`** finds a member exactly when the quoted key occurs there first (`JsonValueExactIff`,
  `EarlierValueHides`); **`json_escape`** cuts its input exactly when what comes before the last byte leaves
  less room than one more escape (`LiteralCompleteIff`, `LongArgumentIsCut`).
* **Diff reading** drops removed lines that start with `--`, added lines that start with `++`, and hunks left
  without lines (`ParseUndoesPrintIff`, `DoubledSignsAreLost`); the header of a built diff is right only for
  texts of one line (`HeaderIsRightIff`, `HeaderIsWrong`).
* **The git log decoder** is right exactly when no field holds a `|` (`SubjectBarShifts` says what one in a
  subject does, `BarIsMisread` is a commit); the **status decoder** takes the old path of a rename for a
  further entry unless that path is shorter than three characters or starts with two blanks
  (`RenameShowsOldPath`).
* **The tab index** stays right exactly as long as every file that is opened anew, or whose tab is closed by
  its id, resolves to itself at that moment (`RunKeepsIndexIff`); otherwise opening a file again can return
  the id of a tab that is gone (`ClosedTabReturned`). Ids and panes never depend on it (`RunKeepsTabs`).
* **The Windows menu** shows another window than the one clicked when a row above it, or the row itself, was
  pruned while the menu was open (`ClickShowsOtherWindow`), and row 1000 to 1002 share their number with the
  fixed entries (`ThousandthRowShowsAll`).
* **The icon crop** loses the last column or row of the mark exactly when the longer side is even and shorter
  than 10 pixels (`TwoPixelsLoseOne`).

## Model

| member | source | states |
|---|---|---|
| TrayTheorems.AvailabilityAgrees | linux/runner/clide_tray_bridge.cc:41-117 | over every run, with loaders dying and coming back: once the loader has answered a window's Register, the last availability message in flight to the window, or its own flag if there is none, is the loader's availability; before that it is never true of a tray the loader does not have; without a loader it ends false |
| TrayTheorems.KnownLoaderIsAsked | linux/runner/clide_tray_bridge.cc:97-103 | over every run: a window that has seen the current loader appear has registered with it, or its Register is in one of the two queues |
| TrayTheorems.RowsAgree | linux/runner/clide_loader.cc:664-689 | over every run: at most one row per window, and for a window that has seen the loader appear the last Register or Update in flight, or its row if none is, carries the window's workspace, and its visibility exactly when no first-frame show went untold |
| TrayTheorems.NothingElseIsSilent | linux/runner/clide_app.cc:105-107 | over every run without a first-frame show of a window, the loader has been or is being told every change of that window |
| TrayTheorems.QuietMeansAgreed | linux/runner/clide_loader.cc:651-709 | over every run: with no message under way, the rows are exactly the live windows with their states, and every window has the loader's availability, or none if there is no loader |
| TrayTheorems.MenuReachesEveryWindow | linux/runner/clide_loader.cc:212-237 | over every run: with no message under way, "show all", "hide all" and "quit all" call every live window exactly once and nobody else |
| TrayTheorems.ToggleFollowsWindows | linux/runner/clide_loader.cc:522-532 | over every run: with no message under way, a click on the icon hides all windows exactly when there are some, all are visible and none was last shown by its first frame unknown to the loader, and else shows all |
| TrayClicks.MenuClickIsObeyed | linux/runner/clide_loader.cc:212-237 | from every quiet state with a loader, over every order of deliveries until all is quiet again: "show all" leaves every live window visible, "hide all" leaves every one hidden if there is a tray and as it was if not, "quit all" leaves every one quitting, and nothing else changes about visibility and quitting |
| TrayClicks.IconClickIsObeyed | linux/runner/clide_loader.cc:522-532 | likewise: a click on the icon leaves every window hidden (with a tray) if there are some, all are visible and the loader knows it, and else visible |
| TrayClicks.SecondaryClickShowsAll | linux/runner/clide_loader.cc:538-542 | likewise: a secondary click leaves every window visible |
| TrayClicks.RowClickShowsWindow | linux/runner/clide_loader.cc:227-237 | likewise: a click on a row that no earlier row shares its id with leaves its window visible and every other as it was |
| TrayClicks.QuitAllQuitsEveryone | linux/runner/clide_tray_bridge.cc:147-153 | likewise: "quit all" from one window leaves every live window quitting |
| TraySettles.DeliveryShrinks | linux/runner/clide_loader.cc:651-709 | after every run: each delivery of a message strictly lessens what is under way, so no order of deliveries goes on forever |
| TraySettles.AllArrives | linux/runner/clide_loader.cc:651-709 | from every reachable state deliveries alone lead to a state in which all is quiet |
| TrayActs.CallIsObeyed | linux/runner/clide_tray_bridge.cc:162-172 | over every run: a live window that handles Show is visible after it, one that handles Hide is hidden exactly if it had a tray or was hidden already, one that handles Quit is quitting; a change of visibility is told to a loader that is there, and nothing else changes |
| TrayActs.ActIsDone | linux/runner/clide_tray_bridge.cc:121-206 | over every run: what each act of the user or of Dart makes of a window's visibility, quitting, close setting, workspace and labels, and what a loader is told of it |
| TrayActs.NewsIsTaken | linux/runner/clide_tray_bridge.cc:71-117 | over every run: a window that hears of a loader registers and sends its labels, one that hears of an availability believes it, and nothing else changes |
| TrayActs.NewWindowIsBlank | linux/runner/clide_tray_bridge.cc:15-29 | over every run: a window that has just started is hidden, knows no loader, tray, workspace or label, and lets a close end it |
| TrayActs.WindowIsAsTold | linux/runner/clide_tray_bridge.cc:176-206 | over every run: a live window has the workspace, close setting and label texts that were set last, and is quitting exactly when it was told to by its user, by the loader, or by "quit all" without a loader |
| TrayLabels.LabelsReachLoader | linux/runner/clide_tray_bridge.cc:60-69 | over every run, however often the loader was replaced: the loader's labels are exactly the maps sent to it, later ones overriding earlier ones, and for every label of a window that has seen this loader the last text it has sent, handled or on its way, is the window's own |
| TrayLabels.QuietLabels | linux/runner/clide_loader.cc:690-699 | over every run: with no message under way, the loader has a text for every label of every live window, and it is the window's own for every key that no other window sent |
| TrayLabels.RunKeepsLabels | linux/runner/clide_loader.cc:690-699 | every reachable state keeps both: what the loader was sent is what it has, and the last text sent by a window that knows it is the window's own |
| TrayTheorems.LastWindowEndsLoader | linux/runner/clide_loader.cc:651-662 | over every run: once every window is gone and all is handled, the list is empty and the exit timer is armed within the startup time, unless the loop is ending already |
| TrayTheorems.TimerLeavesTimeToRestart | linux/runner/clide_loader.cc:42-47 | over every run: a due timer ends the loop exactly on an empty list, and no sooner than three seconds after the list became empty |
| TrayTheorems.SpawnsArePaced | linux/runner/clide_tray_bridge.cc:79-95 | over every run: two consecutive attempts of one window to start a loader are five seconds apart |
| TrayHidden.StrandedIff | linux/runner/clide_tray_bridge.cc:41-117 | after every run, whatever event comes next: a live window that is not stranded becomes hidden with no tray exactly when it is hidden already and handles the news that the tray is gone |
| TrayHidden.LosesLoaderIff | linux/runner/clide_tray_bridge.cc:79-109 | after every run: a live window that handles the loss of the loader has no tray and starts a loader exactly when it is neither quitting nor within five seconds of its last attempt; so it ends hidden with no tray, no loader and none started exactly when it was hidden and is held back |
| TrayHidden.StaysLost | linux/runner/clide_tray_bridge.cc:79-109 | after every run: a hidden window with no tray, no loader and nothing on its way to it stays so, and starts no loader, until a loader is started elsewhere or its own side shows it |
| TrayHidden.QuietTrayIff | linux/runner/clide_tray_bridge.cc:41-117 | over every run: with no message under way, a live window is hidden with no tray exactly when it is hidden and there is no loader or the loader has no tray |
| TrayHidden.ActsNeverStrand | linux/runner/clide_tray_bridge.cc:121-158 | no act of the user or of Dart, and no call of the loader, hides a window that has no tray |
| TrayCounterexamples.FirstFrameGoesUntold | linux/runner/clide_app.cc:105-107 | a reachable quiet state in which the row of a visible window says that it is hidden |
| TrayCounterexamples.ClickShowsVisibleWindow | linux/runner/clide_loader.cc:522-532 | a reachable quiet state in which every window is visible and a click on the icon shows all instead of hiding them |
| TrayCounterexamples.HiddenWindowIsLost | linux/runner/clide_tray_bridge.cc:79-109 | a reachable state with a hidden window, no tray, no loader, none started and nothing on its way |
| TrayCounterexamples.HangingWindowKeepsLoader | linux/runner/clide_loader.cc:220-225 | a reachable state from which "quit all" arms a timer that comes due and fires, and leaves the loop running with the window's row and no timer |
| TrayWindowSteps.RunKeepsInv | linux/runner/clide_tray_bridge.cc:41-158 | every reachable state of windows, loaders and queues satisfies the protocol's invariant |
| TrayWindowSteps.StepKeepsInv | linux/runner/clide_loader.cc:597-709 | every single step of the session keeps the invariant |
| TrayInvariant.HandleKeepsInv | linux/runner/clide_loader.cc:651-709 | so does the loader handling any one message |
| TrayInvariant.StartLoaderKeepsInv | linux/runner/clide_loader.cc:732-742 | so does a loader starting, empty or turned away because the name is taken |
| TrayInvariant.KillLoaderKeepsInv | linux/runner/clide_tray_bridge.cc:105-109 | so does a loader dying with all that it had not sent or handled |
| TrayLoaderFacts.RunKeepsInv | linux/runner/clide_loader.cc:122-140 | over every run of one loader: one row per sender, ids by creation order, an empty list means an armed timer or an ending loop, availability as far as it is known |
| TrayLoaderFacts.EmptyListIsLeaving | linux/runner/clide_loader.cc:122-140 | over every run after the name is acquired: an empty list means an armed exit timer or an ending loop |
| TrayLoaderFacts.EndingIff | linux/runner/clide_loader.cc:122-129 | over every run: the loop is ending exactly when at some moment a signal came or the timer fired on an empty list |
| TrayLoaderFacts.MenuIdsDistinctIff | linux/runner/clide_loader.cc:178-190 | over every run: the k-th row gets id k mod 999 + 1, below the fixed ids, and the ids of the layout are distinct exactly when no two live rows were created a multiple of 999 apart |
| TrayLoaderFacts.ClickReachesItsWindowIff | linux/runner/clide_loader.cc:227-237 | over every run: clicking a row shows that window and no other exactly when no earlier live row clashes with it |
| TrayLoaderFacts.ClashNeedsManyRows | linux/runner/clide_loader.cc:673-674 | two rows clash only after more than 999 rows since the oldest live one |
| TrayLoaderFacts.ClashIsReached | linux/runner/clide_loader.cc:673-674 | a run of 1000 windows after which two live rows share an id, and a click on the second shows the first |
| TrayLoaderFacts.AvailabilityLagsOnlyWhileAsking | linux/runner/clide_loader.cc:603-647 | over every run: the advertised availability implies watcher and host, and equals them when no question is unanswered |
| TrayLoaderFacts.LagIff | linux/runner/clide_loader.cc:603-647 | over every run: watcher and host are on record without a tray advertised exactly when at some moment the watcher came back while a host was on record and no tray advertised, and since then no answer, no departure of the watcher and no signal but that of a leaving host came |
| TrayLoaderFacts.AvailabilityCanLag | linux/runner/clide_loader.cc:605-647 | a run after which watcher and host are recorded but no tray is advertised |
| TrayLoaderHistory.WatcherIsLastWord | linux/runner/clide_loader.cc:605-647 | over every run of one loader: a host is on record exactly when the last word on it was a failed answer, a "yes" or the signal of a host; the watcher is there exactly when it appeared last; the open questions are those asked and not answered |
| TrayLoaderHistory.TrayIsLastWord | linux/runner/clide_loader.cc:597-647 | over every run: a tray is advertised exactly when by the last word there are watcher and host, unless a lag is under way, which needs an open question |
| TrayLoaderHistory.RowsAreHistory | linux/runner/clide_loader.cc:651-684 | over every run: the rows are the windows that have spoken and not gone, in the order of their first word, each with what it said last |
| TrayLoaderHistory.TimerIsHistory | linux/runner/clide_loader.cc:122-140 | over every run: the deadline of the exit timer, read off the actions: 20 seconds after the name, 3 after the list became empty, 5 after "quit all", none after it fired or a new window came |
| TrayLoaderHistory.MenuIsHistory | linux/runner/clide_loader.cc:178-190 | over every run: the menu has the windows in the order of their first word, then 2000 if there are any, 1000, 1001, 2001 and 1002 |
| TrayLoaderHistory.SendsAreHistory | linux/runner/clide_loader.cc:597-709 | over every run: exactly what the loader sends on each action: a watch for a new window, an answer to every Register, a call to every listed window on a click, its availability on a change only |
| TrayLoader.Loader.constructor | linux/runner/clide_loader.cc:57-78 | a new loader has no rows, no timer and no tray |
| TrayLoader.Loader.WindowBySender | linux/runner/clide_loader.cc:95-101 | the loop finds the first row of a sender |
| TrayLoader.Loader.WindowById | linux/runner/clide_loader.cc:103-109 | the loop finds the first row with an id |
| TrayLoader.Loader.CallEach | linux/runner/clide_loader.cc:212-222 | one call to every row's window, in row order |
| TrayLoader.Loader.OnExitTimeout | linux/runner/clide_loader.cc:122-129 | the loop ends exactly on an empty list |
| TrayLoader.Loader.OnNameAcquired | linux/runner/clide_loader.cc:732-736 | the tray starts and the startup timer is armed |
| TrayLoader.Loader.BuildMenuIds | linux/runner/clide_loader.cc:178-190 | the loop builds the ids of the layout in order |
| TrayLoader.Loader.QuitAllWindows | linux/runner/clide_loader.cc:220-225 | Quit to every window, timer two seconds over the idle time |
| TrayLoader.Loader.OnMenuClicked | linux/runner/clide_loader.cc:227-237 | dispatch of a click |
| TrayLoader.Loader.OnActivate | linux/runner/clide_loader.cc:522-532 | shows all if any window is hidden or there is none, else hides all |
| TrayLoader.Loader.UpdateTrayAvailable | linux/runner/clide_loader.cc:597-601 | a change is broadcast, and only a change |
| TrayLoader.Loader.OnHostRegisteredReply | linux/runner/clide_loader.cc:605-615 | the answer is recorded, a failed or typeless one as a registered host, and what is advertised refreshed |
| TrayLoader.Loader.OnWatcherSignalled | linux/runner/clide_loader.cc:626-636 | a host that registers is recorded, a host that leaves makes the watcher be asked again, and every other signal, like a registration, refreshes what is advertised |
| TrayLoader.Loader.OnWatcherAppears | linux/runner/clide_loader.cc:638-641 | the watcher is present and asked |
| TrayLoader.Loader.OnWatcherVanishes | linux/runner/clide_loader.cc:643-647 | watcher and host are gone and the tray with them |
| TrayLoader.Loader.OnWindowVanishes | linux/runner/clide_loader.cc:651-662 | the first row of the sender is removed, and an empty list arms the timer |
| TrayLoader.Loader.OnRegisterOrUpdate | linux/runner/clide_loader.cc:666-684 | an unknown sender gets a row, an id, a watch and the timer cancelled; a known one is updated in place |
| TrayLoader.Loader.OnLoaderCall | linux/runner/clide_loader.cc:664-709 | every method of the loader's interface, reply included |
| TrayBridge.Bridge.constructor | linux/runner/clide_tray_bridge.cc:15-29 | a new bridge knows no loader and no tray |
| TrayBridge.Bridge.SetTrayAvailable | linux/runner/clide_tray_bridge.cc:41-45 | Dart is told of a change, and only of a change |
| TrayBridge.Bridge.CallLoader | linux/runner/clide_tray_bridge.cc:49-56 | a call is sent only while a loader is present |
| TrayBridge.Bridge.UpdateLoader | linux/runner/clide_tray_bridge.cc:58 | Update with workspace and visibility |
| TrayBridge.Bridge.SetLoaderLabels | linux/runner/clide_tray_bridge.cc:60-69 | SetLabels if there are labels |
| TrayBridge.Bridge.OnRegisterReply | linux/runner/clide_tray_bridge.cc:71-77 | a reply sets the availability, a failure changes nothing |
| TrayBridge.Bridge.Spawn | linux/runner/clide_tray_bridge.cc:79-95 | a loader is started unless the back-off forbids it |
| TrayBridge.Bridge.LoaderAppears | linux/runner/clide_tray_bridge.cc:97-103 | Register, then the labels |
| TrayBridge.Bridge.LoaderVanishes | linux/runner/clide_tray_bridge.cc:105-109 | no loader, no tray, and a new loader unless quitting |
| TrayBridge.Bridge.ShowNow | linux/runner/clide_tray_bridge.cc:121-125 | shown and told |
| TrayBridge.Bridge.HideNow | linux/runner/clide_tray_bridge.cc:128-133 | hidden and told, refused without a tray |
| TrayBridge.Bridge.QuitAllWindows | linux/runner/clide_tray_bridge.cc:147-153 | through the loader if there is one |
| TrayBridge.Bridge.DeleteEvent | linux/runner/clide_tray_bridge.cc:155-158 | hides exactly when not quitting, asked to and possible |
| TrayBridge.Bridge.WindowCall | linux/runner/clide_tray_bridge.cc:162-172 | Show, Hide and Quit from the loader |
| TrayBridge.Bridge.ChangeWorkspace | linux/runner/clide_tray_bridge.cc:188-194 | the workspace is kept and told |
| TrayBridge.Bridge.ChangeLabels | linux/runner/clide_tray_bridge.cc:195-206 | sent labels override kept ones, and all are sent |
| ClideRequest.JsonEscape | native/clide-cli/clide.c:310-333 | in a buffer of two bytes or more the literal of the bytes the loop reaches is written and NUL-terminated, and nothing past the given size changes |
| ClideRequest.EscapeLoop | native/clide-cli/clide.c:311-330 | the loop writes the opening quote and the escapes of exactly the bytes that have room |
| ClideRequest.EmitEscape | native/clide-cli/clide.c:315-329 | the switch writes the escape of one byte and stays two bytes inside the buffer |
| ClideRequest.EscapedCopy | native/clide-cli/clide.c:357-359 | what `%s` prints of an escape buffer is the literal |
| ClideRequest.LiteralDecodes | native/clide-cli/clide.c:310-333 | in a buffer of three bytes or more that literal is closed and well-formed, no escape split, and its meaning under section 7 of RFC 8259 is the kept prefix |
| ClideRequest.LiteralCompleteIff | native/clide-cli/clide.c:314 | nothing is cut exactly when the escapes before the last byte leave room for one more |
| ClideRequest.EscapeSizes | native/clide-cli/clide.c:315-329 | an escape has two characters where JSON has a short one and six for the other control bytes |
| ClideRequest.LiteralParses | native/clide-cli/clide.c:310-333 | the parser reads the literal back whatever follows it |
| ClideRequest.Print | native/clide-cli/clide.c:348-351 | `snprintf` at an offset: all of the text and its NUL, or as much as fits and a length past the buffer |
| ClideRequest.PrintArgs | native/clide-cli/clide.c:348-362 | the head and the arguments without `--stdin`, separated by commas, or overflow exactly when they do not fit |
| ClideRequest.BuildRequest | native/clide-cli/clide.c:346-373 | 0 with the whole envelope and its NUL in the buffer, or -1 exactly when it does not fit |
| ClideEnvelope.EnvelopeIsText | native/clide-cli/clide.c:346-373 | the envelope is the text of a well-formed JSON object, and a newline |
| ClideEnvelope.RequestDecodes | native/clide-cli/clide.c:346-373 | its argv array decodes to the arguments in order with every `--stdin` removed, each cut to its buffer, and its stdin field to the payload, present exactly when there is one |
| ClideEnvelope.RequestIsTagged | native/clide-cli/clide.c:348-351 | the request has exactly five members: its type, version 1, the id with the process number, the command, and the arguments |
| ClideEnvelope.TravellingDropsFlags | native/clide-cli/clide.c:354-356 | every `--stdin` is left out wherever it stands, and nothing else |
| ClideEnvelope.LongestPrefixKept | native/clide-cli/clide.c:313-314 | what is kept of a text is its longest prefix that fits |
| ClideEnvelope.ArgvCompleteIff | native/clide-cli/clide.c:353-362 | the arguments come through whole exactly when each fits its escape buffer |
| ClideEnvelope.LongArgumentIsCut | native/clide-cli/clide.c:310-333 | an argument of 4088 plain bytes arrives without its last byte |
| ClideEnvelope.EnvelopeIsOneLine | native/clide-cli/clide.c:371 | the one newline of the envelope is its last byte |
| ClideScan.FindNeedle | native/clide-cli/clide.c:410-411 | the loop finds the first occurrence of the quoted key |
| ClideScan.WalkValueLoop | native/clide-cli/clide.c:417-434 | the loop with its depth counter and its string flag stops where the walk function stops |
| ClideScan.FindJsonValue | native/clide-cli/clide.c:406-436 | start and length of what the scanner returns, or nothing |
| ClideScan.WalkValue | native/clide-cli/clide.c:417-434 | from any depth, the walk crosses any well-formed value, with any nesting and any escapes, and is back at that depth |
| ClideScan.WalkStopsAtEnd | native/clide-cli/clide.c:417-434 | before `,`, `}`, `]` or the end the scan stops exactly at the end of the value |
| ClideScan.JsonValueExactIff | native/clide-cli/clide.c:406-436 | a member's exact value text is returned exactly when the quoted key occurs there first |
| ClideScan.EarlierValueHides | native/clide-cli/clide.c:410-414 | a response whose `ok` member is not found because its id is `ok` |
| ClideScan.LongKeyIsNotFound | native/clide-cli/clide.c:408-413 | a key of 126 characters loses its closing quote in the needle, and its member is not found |
| ClideScan.NewlineIsTaken | native/clide-cli/clide.c:413-435 | only blanks and tabs are passed over before a value, and none is taken off its end |
| ClideRoot.FindWorkspaceRoot | native/clide-cli/clide.c:227-252 | the deepest directory of the path that holds `.git`, nothing exactly when none does, and nothing for a path too long for the buffer |
| Fnv.Fnv1a64Hex | native/clide-cli/clide.c:156-164 | the loop computes the 16-digit name in 64-bit wrap-around arithmetic |
| Fnv.ReferenceValues | test/ipc/paths_test.dart:94-108 | the published names of the empty text, of `a` and of `foo` |
| Fnv.StepUndo | native/clide-cli/clide.c:158-161 | every step is a bijection of 64-bit states: the inverse of the prime and the byte undo it |
| Fnv.HexInjective | native/clide-cli/clide.c:163 | different states print differently |
| Fnv.CommonSuffixIff | native/clide-cli/clide.c:156-164 | a common suffix neither creates nor removes a collision |
| Fnv.OneByteApart | native/clide-cli/clide.c:156-164 | equal-length paths that differ in one byte get different names |
| DiffParse.Recount | legacy/clide/controllers/diff.py:189-199 | counting the lines of one side of the open hunk |
| DiffParse.ReadLine | legacy/clide/controllers/diff.py:161-205 | the body of the line loop |
| DiffParse.ParseDiffLoop | legacy/clide/controllers/diff.py:153-221 | the whole loop gives the hunks of the specification |
| DiffParse.NumbersRunOn | legacy/clide/controllers/diff.py:185-205 | for every text: the i-th line of each side of a hunk is numbered from that side's start, no hunk is empty, and no line has a number on a side it is not on |
| DiffParse.ReadingPrinted | legacy/clide/controllers/diff.py:153-221 | reading a printed diff, with any lines before its hunks, gives exactly the hunks that keep a line, with their kept lines renumbered |
| DiffParse.ParseUndoesPrintIff | legacy/clide/controllers/diff.py:153-221 | reading undoes printing exactly when no hunk is empty, no removed line starts with `--` and no added line with `++` |
| DiffParse.DoubledSignsAreLost | legacy/clide/controllers/diff.py:189-199 | the diff that replaces a line `--` by `++` is read as no change at all |
| DiffParse.NoiseIgnored | legacy/clide/controllers/diff.py:160-205 | lines that are neither headers nor hunk lines change nothing, wherever they stand |
| DiffParse.ReadHeaderText | legacy/clide/controllers/diff.py:176-183 | headers as git prints them, a count of 1 left out, give back their four numbers |
| DiffParse.LooseRange | legacy/clide/controllers/diff.py:178 | a comma without a count behind it is passed over |
| DiffParse.UnreadableHeader | legacy/clide/controllers/diff.py:174-183 | a header that cannot be read opens a hunk with the numbers of the last one that could |
| DiffParse.HeaderlessLine | legacy/clide/controllers/diff.py:153-158 | a line before any header makes a hunk without one, numbered from 0 |
| DiffBuild.CreateDiffFromContent | legacy/clide/controllers/diff.py:265-330 | the nested loops build the hunk of the specification |
| DiffBuild.AddLoop | legacy/clide/controllers/diff.py:277-316 | one line loop, with its counters |
| DiffBuild.DiffHoldsBothTexts | legacy/clide/controllers/diff.py:265-330 | for any opcodes that partition both texts: the lines not added are the old lines numbered 1 to n, those not removed the new lines numbered 1 to m, and the hunk says n and m |
| DiffBuild.BlocksInOrder | legacy/clide/controllers/diff.py:276-316 | for any opcodes: an equal block is context, and every other block gives the lines it removes and then those it adds, in order |
| DiffBuild.PatchGivesNew | legacy/clide/controllers/diff.py:265-330 | applied to the old text the diff gives the new one, applied backwards to the new text the old one, and it applies to nothing else |
| DiffBuild.HeaderIsRightIff | legacy/clide/controllers/diff.py:318-324 | the fixed header says what the counts say exactly when both texts have one line |
| DiffBuild.HeaderIsWrong | legacy/clide/controllers/diff.py:318-324 | two equal texts of two lines get a header that speaks of one line |
| DiffBuild.SplitLinesKeeps | legacy/clide/controllers/diff.py:269-270 | splitting into lines loses nothing and splits exactly at the line boundaries |
| DiffBuild.BreakCodes | legacy/clide/controllers/diff.py:269-270 | the line boundaries by code point |
| DiffBuild.ChompTakesOne | legacy/clide/controllers/diff.py:280 | exactly the newline that ends a line is taken off, if one does |
| Lcov.ReadLine | ci/merge_lcov.py:25-37 | the body of the line loop |
| Lcov.ReadFile | ci/merge_lcov.py:23-37 | one file, with its line loop, is read into the table, or fails exactly when a number does not parse |
| Lcov.PrintCounts | ci/merge_lcov.py:43-44 | the loop over the sorted line numbers prints their counts |
| Lcov.PrintRecord | ci/merge_lcov.py:41-47 | one record is printed after what is there |
| Lcov.PrintTable | ci/merge_lcov.py:39-49 | the printing loop gives the text of the table |
| Lcov.MergeFiles | ci/merge_lcov.py:19-49 | the script: the output of the specification, or failure exactly when a number does not parse |
| Lcov.RecordText | ci/merge_lcov.py:39-49 | the text of a table with one file and two lines, to the byte |
| Lcov.Newlines | ci/merge_lcov.py:24-26 | `\r\n` and `\r` alone are read as one newline |
| LcovLaws.AbsorbIsJoin | ci/merge_lcov.py:22-37 | reading a file into a table is the join with what the file alone gives |
| LcovLaws.ReadPrinted | ci/merge_lcov.py:39-49 | reading a printed table gives it back |
| LcovLaws.PyIntOfText | ci/merge_lcov.py:34 | `int` undoes `str` |
| LcovLaws.PyIntPlus | ci/merge_lcov.py:34 | a plus in front of a number is read |
| LcovLaws.PaddedNumber | ci/merge_lcov.py:34 | white space before a number is ignored |
| LcovLaws.Underscored | ci/merge_lcov.py:34 | digits with underscores between them are read as their digits, unless two underscores meet |
| LcovLaws.MergeAssociative | ci/merge_lcov.py:22-49 | replacing any run of inputs by their merge changes no byte of the output, and no success into a failure or back |
| LcovLaws.MergeIdempotent | ci/merge_lcov.py:22-49 | merging a merged file changes no byte |
| LcovGate.MergedSaysTheHighest | ci/merge_lcov.py:19-45 | read again, the merged file has the inputs' files in first-seen order and for every line of every input its highest count |
| LcovGate.GateCountsOnce | ci/coverage_gate.sh:29-38 | the gate's LF sum over the merged file is the number of distinct lines in all inputs, its LH sum the number of those hit in at least one |
| GitLog.GetLog | legacy/clide/services/git_service.py:243-273 | the loop gives the commits of the specification |
| GitLog.DecodeUndoesPrintIff | legacy/clide/services/git_service.py:243-273 | decoding undoes the printing of any log git can print, field by field, parents and refs in order and the merge flag, exactly when no field holds the separator |
| GitLog.SubjectBarShifts | legacy/clide/services/git_service.py:243-273 | one separator in the subject of any commit cuts the subject there and shifts every later field by one |
| GitLog.BarIsMisread | legacy/clide/services/git_service.py:243-273 | a root commit whose subject is `a`, the separator and `b` is shown as a commit by `b` with a parent |
| GitLog.WordsOfJoin | legacy/clide/services/git_service.py:258 | the parents come back in order |
| GitLog.RefsRead | legacy/clide/services/git_service.py:259 | the refs come back in order |
| Text.SpaceCodes | legacy/clide/services/git_service.py:258-259 | the white space that splits parents and is stripped off refs, by code point |
| GitStatus.GetStatus | legacy/clide/services/git_service.py:31-72 | the loop gives the three lists of the specification |
| GitStatus.DecodeUndoesPrintIff | legacy/clide/services/git_service.py:31-72 | the lists are those of the printed entries, in order, exactly when every old path of a rename is passed over |
| GitStatus.LettersRead | legacy/clide/services/git_service.py:101-113 | what each letter of git means, in the index and in the work tree, and that an untracked file goes to both lists |
| GitStatus.RenameShowsOldPath | legacy/clide/services/git_service.py:36-72 | staging one rename also shows a staged and an unstaged change of a file that is none |
| Workspace.WorkspacePanel.constructor | legacy/clide/widgets/panels/workspace.py:208-212 | an empty index |
| Workspace.WorkspacePanel.Add | legacy/clide/widgets/panels/workspace.py:260-304 | a tab with the next id in registry, panes and file index |
| Workspace.WorkspacePanel.Remove | legacy/clide/widgets/panels/workspace.py:306-346 | the tab leaves all three, and the last one hides the panel |
| Workspace.WorkspacePanel.OpenPath | legacy/clide/widgets/panels/workspace.py:444-472 | the tab of a file that is open, or a new one |
| Workspace.WorkspacePanel.ShowFirstTerminal | legacy/clide/widgets/panels/workspace.py:489-499 | the first terminal, or a new one |
| Workspace.WorkspacePanel.ClearPlainDiffs | legacy/clide/widgets/panels/workspace.py:585-593 | every diff tab that shows no proposal is closed, and no other (`StepLeaves`) |
| Workspace.WorkspacePanel.CloseDiffOf | legacy/clide/widgets/panels/workspace.py:621-636 | the first tab of the decided diff is closed |
| Workspace.RunKeepsTabs | legacy/clide/widgets/panels/workspace.py:260-346 | over every run, whatever the file system does: registry and panes have the same keys, open tabs have distinct ids, no tab id is handed out twice, and no diff tab has a file |
| Workspace.RunKeepsIndexIff | legacy/clide/widgets/panels/workspace.py:260-346 | over every run: the file index is the inverse of the registry's file paths after every step exactly when every file opened anew, and every file whose tab is closed by id, resolves to itself at that step |
| Workspace.StepKeepsIndexIff | legacy/clide/widgets/panels/workspace.py:260-346 | any one operation keeps the file index right exactly when the path it opens anew or closes is settled |
| Workspace.AddKeepsIndexIff | legacy/clide/widgets/panels/workspace.py:264-304 | a new tab keeps the file index right exactly when it has no file or its path resolves to itself |
| Workspace.RemoveKeepsIndexIff | legacy/clide/widgets/panels/workspace.py:311-318 | closing a tab keeps the file index right exactly when the tab has no file or its path still resolves to itself |
| Workspace.OneTabPerFile | legacy/clide/widgets/panels/workspace.py:444-472 | over every run of such openings and closings: a file has one tab, and opening it again returns that tab and adds none |
| Workspace.StepLeaves | legacy/clide/widgets/panels/workspace.py:260-346 | after every run: what the next operation makes of the open tabs: a new one is the last, with its id by counting; closing takes the tab of that id, clearing all diff tabs that show no proposal and no others, deciding the first tab of that diff; the rest keep their order |
| Workspace.ShownIffTabs | legacy/clide/widgets/panels/workspace.py:342-346 | over every run the panel is shown while it has tabs, and over every run of settled openings and closings exactly then |
| Workspace.ClosedTabReturned | legacy/clide/widgets/panels/workspace.py:448-462 | after a directory turned into a link, opening a closed file returns the id of the closed tab and opens none |
| Workspace.NumberOfId | legacy/clide/widgets/panels/workspace.py:260-262 | an id shows the number it was made from |
| WindowsTray.SplitNulLoop | windows/runner/clide_tray.cpp:49-62 | the loop splits at NULs and drops only an empty rest |
| WindowsTray.RegisterReadsIff | windows/runner/clide_tray.cpp:245-248 | the loader reads what a window registered exactly when the workspace holds no NUL |
| WindowsTray.BuildLabels | windows/runner/clide_tray.cpp:415-425 | the loop builds the payload of the labels |
| WindowsTray.LabelsReadIff | windows/runner/clide_tray.cpp:261-263 | the pairs are read back in order, empty ones included, exactly when they hold no NUL |
| WindowsTray.LabelsOverride | windows/runner/clide_tray.cpp:261-263 | the label map becomes the old one overridden by the sent one, and nothing else changes |
| WindowsTray.ClickShowsItsWindowIff | windows/runner/clide_tray.cpp:153-184 | whatever the loader handles while its menu is open, a row shows its own window and nothing else exactly when no row up to it was pruned and its number is no fixed entry's (or it is "show all" and the only window left) |
| WindowsTray.ClickShowsOtherWindow | windows/runner/clide_tray.cpp:153-184 | the first of two windows ends while the menu is open, and a click on its row shows the other one |
| WindowsTray.ThousandthRowShowsAll | windows/runner/clide_tray.cpp:175-183 | a click on the row of the 1000th window shows all of them |
| WindowsTray.IdleEndsIff | windows/runner/clide_tray.cpp:305-309 | while nobody registers, the n-th tick ends the loader exactly when none of its windows is alive and the count has come to 3, or 20 if nobody ever registered |
| WindowsTray.Loader.Register | windows/runner/clide_tray.cpp:245-260 | a window is added or updated, and answered |
| WindowsTray.Loader.TakeLabels | windows/runner/clide_tray.cpp:261-263 | the loop over pairs gives the overridden map |
| WindowsTray.Loader.IdleTick | windows/runner/clide_tray.cpp:305-309 | dead windows are pruned, empty ticks counted, and the loader ends after 3 of them, 20 if nobody ever registered |
| WindowsTray.Loader.PostToAll | windows/runner/clide_tray.cpp:133-141 | one command to every window, in order |
| WindowsTray.Loader.ClickMenu | windows/runner/clide_tray.cpp:175-183 | dispatch of a click |
| WindowsTray.ClickPosts | windows/runner/clide_tray.cpp:175-183 | 1000 shows, 1001 hides and 1002 quits every window, once each and in order; a row's number shows its window, and no other number posts anything |
| WindowsTray.Loader.ToggleAll | windows/runner/clide_tray.cpp:142-151 | a click on the icon hides every window if there are some and all are visible, else shows every one |
| WindowsTray.RegisterRecords | windows/runner/clide_tray.cpp:245-260 | what a window registered is on record for it, at its place or at the end, the others stay, and a new one starts the idle count anew |
| WindowsTray.PrunedIff | windows/runner/clide_tray.cpp:104-108 | a tick keeps exactly the live windows with all that is on record for them |
| WindowsTray.PruneLoop | windows/runner/clide_tray.cpp:104-108 | the live windows, in order |
| IconCrop.FindBounds | linux/runner/clide_loader.cc:345-358 | the double loop finds the smallest box of the mark, or that there is none |
| IconCrop.CropToMark | linux/runner/clide_loader.cc:344-372 | a blank picture is returned as it is; otherwise the picture moved so that the box is centred, cut to its size and clear elsewhere |
| IconCrop.CropTo | linux/runner/clide_loader.cc:360-371 | the same once the box is known |
| IconCrop.CopyStaysInside | linux/runner/clide_loader.cc:366-370 | for every picture and box, the copied rectangle is exactly what lies inside both pictures |
| IconCrop.MarkKeptIff | linux/runner/clide_loader.cc:360-371 | every pixel of the mark is kept exactly when the longer side of the box is at least 10 or odd |
| IconCrop.MarkIsCentred | linux/runner/clide_loader.cc:360-365 | the picture has the box's longer side and on either side the largest whole margin of at most a tenth of it, and the box is in its middle to half a pixel |
| IconCrop.MarkIsNotFaint | linux/runner/clide_loader.cc:348-350 | a pixel belongs to the mark from an alpha of 9 on |
| IconCrop.TwoPixelsLoseOne | linux/runner/clide_loader.cc:360-371 | a mark of two pixels side by side loses the right one |

## Left out

- Bus, toolkit and windowing details: introspection, replies without a value, menu revisions and property queries, labels as shown text, the error for an unknown method, windows started with the tray disabled or without a session bus.
- The icon theme, the halo and the spin of `pulse`: drawing only; `Pulse` is a message without effect here.
- Starting a process can fail; a failed start is the same as a loader that starts and dies.
- The status notifier watcher is the environment: its callbacks come at any time once the tray is up, and an answer comes only to a question.
- AvailabilityAgrees: a reply to Register may arrive arbitrarily late here. The source's call has the bus's default time-out (`linux/runner/clide_tray_bridge.cc:97-103`), and a reply after it is dropped (`:71-73`), so with a loader that stalls that long a window can miss the availability it would have been answered; the later broadcasts still reach it.
- SpawnsArePaced: says nothing of a start at clock value 0, because the source reads that value as "never started".
- BuildRequest: the running length is unbounded here, because the `int` of the source cannot overflow before the buffer check stops it.
- `Json`: `\u` escapes of surrogates have no meaning in this model; the client never writes one. White space between tokens is not in the grammar, except around the scanned member's colon.
- The Windows walk to the workspace root, sockets and time-outs, `read_line`, `slurp_stdin`, `instances` and `main` of the client: input and output.
- `Lcov`: `int` accepts decimal digits of other scripts in the source; only ASCII digits are digits here, and the decoding of files into text is not modelled.
- `LcovGate`: awk reads signs and fractions in the second field; the merged file has plain digits there.
- `DiffParse`: `\d` matches digits of other scripts in the source; only ASCII digits here.
- `DiffBuild` takes `difflib.SequenceMatcher` at its contract: opcodes that partition both line lists, equal blocks matching.
- Accepting and rejecting hunks, side-by-side state and proposals of the diff controller: set operations that would add easy members.
- `GitStatus`: branch name and ahead/behind counts; `GitLog`: the branch list. Process calls and exit codes.
- `Workspace`: tab labels, the terminal counter they show, focus, widgets and messages. `Path.resolve` is a function given at every step.
- `WindowsTray`: icon, tooltip and timers, the window's own side of the protocol, and reuse of window handles by the system.
- Version parsing and comparison of the update service: a lexicographic order that would add easy members.
