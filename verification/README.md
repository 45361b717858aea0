# Verified models of the dashboard, the hooks and the installer

The models cover the parts of the repository that hold real algorithms and protocols, each in the
form the code has: what the code changes in place is a class or an array here, what it computes in
a loop is a method with its invariants, tied to a specification whose properties are proved.

- **Topic clusters** (`GraphClusters`, `ClusterRules`, `ClusterLaws`, `ClusterChoices`): the clusterer's four passes
  over node objects. The rules speak of the set of nodes and the bag of edges only; the passes are
  proved to meet them, they leave one possible outcome, and what they choose is said once more in
  numbers of uses, sizes and weights.
- **Circle packing** (`CirclePacking`, `CircleGrid`): greedy placement by ring scan, with a fallback
  position, and how far out that can lead.
- **Monotone cubic** (`MonotonePath`, `MonotoneTangents`) and **activity series** (`Activity`): the growth chart.
- **Retry spool** (`CaptureSpool`, `SpoolInvariant`, `SpoolMoves`, `SpoolDelivery`, `SpoolOrder`,
  `SpoolCaps`, `SpoolAnswers`, `SpoolFlush`, `SpoolNames`, `SpoolDirectory`): many processes over one directory. The protocol is a state machine
  over single file system calls with crashes; the texts of the names and the two whole passes over
  the directory are modelled beside it and tied to it.
- **Recall frame** (`RecallFrame`, `RecallWords`), **transcript tail** (`TranscriptTail`, `Utf8`,
  `Utf8Encoding`), **session text** (`SessionFormat`): what the hooks print, read and store.
- **CSV** (`Csv`): the printer, against a reader for section 2 of RFC 4180.
- **Settings** (`Config`, `ConfigTable`, `ConfigRepair`): the repairing read path, the strict write path, resets.
- **Confirm sheet** (`ConfirmSheet`): one sheet, many asynchronous questions.
- **Rebuild loop** (`Migration`): the settings window against an arbitrary Worker.
- **Answer stream** (`AnswerStream`, `EventLines`, `EventFraming`, `AnswerEncoding`): the strict
  event-stream parser, against the standard's framing and the encoder that feeds it.

`RealGeometry`, `Splitting`, `JsText`, `Decimals`, `Options` and `Transcript` hold what these share.

## Where the code does less than its words

The models follow the code. These are the places where a promise in its comments, its tests or the
standard it reads does not hold as said, with the exact condition proved for each.

- `spoolCapture` returns true "only after the file has been renamed into place", but the caps run
  next and may remove that very capture. When removals succeed they do so if and only if the listed
  files from it on are by themselves over 20 or 5 MB (`SpoolDirectory.CaptureIsDroppedExactly`). If it
  is the newest, it has to be larger than 5 MB itself (`SpoolDirectory.NewestIsDroppedExactly`); if
  the clock was set back or other processes kept later ones meanwhile, it can be of any size
  (`SpoolDirectory.SmallCaptureCanBeDropped`).
- The write path of the settings does not check the log mode, so a write can be accepted and still
  not be what the store resolves to (`Config.WritesResolveToOverlay`, `Config.UnknownLogModeIsStored`).
- A reset does not look at the ordered groups; what it leaves can make the store refuse unrelated
  writes (`Config.UnrelatedWriteIsStoredExactly`, `Config.ResetCanBlockWrites`).
- A rebuild begun while the last one's loop still waits for its refresh shows the running screen
  with no loop behind it, for good (`Migration.LaunchIsLostExactly`, `Migration.LaunchCanBeLost`,
  `Migration.LostForever`). The refresh is one local call, so it takes that call to outlast a begin
  that redeploys.
- A row without cells is printed as an empty line, which no reader of the CSV grammar gives back
  (`Csv.DocumentReadsBack`).
- The stream parser cuts lines as Python does, which knows more line ends than JSON.stringify
  escapes. A complete answer of the answer route is therefore rejected if and only if a chunk holds
  U+0085, U+2028 or U+2029 (`AnswerEncoding.AnswerRouteExactly`, `AnswerEncoding.LineSeparatorIsRejected`).
- Nor is its framing that of the standard: it loses such line ends within data lines, it ignores a
  bare `data`, and it does not know the byte order mark (`EventFraming.FramingIsStandard`,
  `EventFraming.BareDataIsLost`, `EventFraming.BreakIsLost`, `EventFraming.MarkIsLost`).
- The fold breaks ties between equally large refuges by the order of the node's own tags, not by
  name; it is still independent of the order of nodes (`ClusterLaws.FoldIsUnique`).

## Model

| member | source | states |
|---|---|---|
| `GraphClusters.AssignGraphClusters` | public/utils.js:729-892 | Run over any list of distinct nodes and any edges, the four passes leave in each node's `cluster` and `sub` an outcome that ClusterRules describes without loops: nearest tag, fold, three rounds, strongest sub-topic |
| `ClusterLaws.OrderDoesNotMatter` | public/utils.js:821-827 | Two outcomes for the same set of nodes and the same bag of edges are equal, so neither the order of nodes nor that of edges can show in any cluster or sub-topic |
| `GraphClusters.RunsAgree` | public/utils.js:729-892 | After two runs over the same memories and edges, each list in any order, every memory has the same `cluster` and `sub` in both |
| `ClusterLaws.PlacedInRound` | public/utils.js:828-860 | A loose node is placed in round k exactly when its shortest chain of edges to a node placed by tags has k edges |
| `ClusterLaws.LooseIsFarAway` | public/utils.js:828-860 | What is loose in the end is exactly what is more than three edges from every node placed by tags |
| `ClusterLaws.PlacedExactlyWithin` | public/utils.js:838-860 | After k rounds, for every k, the placed nodes are exactly those at most k edges from one placed by tags |
| `ClusterLaws.PlacedStays` | public/utils.js:839-841 | A node that has a cluster keeps it through every round |
| `ClusterLaws.ClustersAreLarge` | public/utils.js:791-808 | Every cluster without a node pinned by a project has at least max(3, N/100 rounded) nodes, even though the fold works on sizes counted before it |
| `ClusterLaws.ProjectDecides` | public/utils.js:761-768 | A node with a project ends in the cluster of its project, through all passes |
| `ClusterLaws.SubTopicsAreShared` | public/utils.js:862-890 | A sub-topic is carried by the node and another node of its cluster, is not the cluster's own tag, and at least half of its carriers are in the cluster |
| `ClusterLaws.WeightIgnoresOrder` | public/utils.js:829-849 | The weight with which neighbours pull a node to a cluster is the same for every order of the edges, parallel edges and self-loops included |
| `ClusterLaws.PickIsUnique` | public/utils.js:757-786 | Nearness to the square root of N with ties by name leaves one possible pick, project and axis tags included |
| `ClusterLaws.SubIsUnique` | public/utils.js:873-888 | Uses within, then uses in all, then the name leave one possible sub-topic |
| `GraphClusters.PickClusters` | public/utils.js:759-789 | The pick loop writes to every node the pick that the rules allow it |
| `GraphClusters.NearestTag` | public/utils.js:770-785 | The loop over a tier's tags finds the nearest tag shared by two nodes if there is one, and nothing otherwise |
| `GraphClusters.FoldClusters` | public/utils.js:791-808 | The fold loop, writing clusters as it goes, moves every node as the sizes before the fold say |
| `GraphClusters.RunRound` | public/utils.js:838-860 | A round decides for all nodes by the clusters before it, and reports that it moved none only if nothing changed |
| `GraphClusters.Propagate` | public/utils.js:828-860 | The rounds with their early stop leave what three full rounds leave |
| `GraphClusters.AssignSubs` | public/utils.js:862-890 | The grouping and the loop over groups give every node the sub-topic that the rules allow it, and loose nodes none |
| `GraphClusters.CountTags` | public/utils.js:736-737 | The counting loop holds for every tag the number of nodes that carry it |
| `GraphClusters.LinksWeighAsEdges` | public/utils.js:829-849 | Summing over the adjacency lists is summing over the edges |
| `CirclePacking.PackGraphCircles` | public/utils.js:929-975 | For all radii and gaps not negative: one centre per input in input order, any two circles at least r_i + r_j + gap apart, R encloses every circle and is attained, and each circle sits at the first free sample of its ring scan or at the fallback |
| `CirclePacking.FallbackIsFree` | public/utils.js:940-942 | The circle of radius `reach` clears every placed circle, in whatever direction |
| `CirclePacking.Scan.FirstFree` | public/utils.js:943-961 | The ring scan ends and finds the first free sample in scan order, or there is none on any ring up to `reach` |
| `CirclePacking.PlaceAll` | public/utils.js:933-967 | Placing one circle after another keeps all of them apart |
| `CirclePacking.ByRadiusIsStableSort` | public/utils.js:931-932 | The placement order is every input once, by falling radius, equal ones in input order |
| `CirclePacking.SpacedIsDisjoint` | public/utils.js:952-974 | The squared comparison of the scan gives true distances between the returned centres |
| `MonotonePath.PathIsMonotone` | public/js/chart.js:6-30 | For strictly increasing x, every cubic piece moves in y only from its first to its last point, so it never overshoots, although each segment rescales slopes shared with its neighbour |
| `MonotonePath.MonotonePath` | public/js/chart.js:7-30 | The loops over points and over the shared slopes emit exactly the pieces of Path |
| `MonotonePath.LimitTangents` | public/js/chart.js:19-23 | The in-place pass over the shared slopes ends in the slopes of the step-by-step specification |
| `MonotonePath.LimitedIsTame` | public/js/chart.js:19-23 | After k steps of the limiter the first k segments are settled for good, and all are still aligned with their secants |
| `MonotonePath.FritschCarlson` | public/js/chart.js:22 | Slope ratios within the circle of radius 3 keep the cubic's slope from changing sign |
| `MonotonePath.PathIsSmooth` | public/js/chart.js:24-28 | Consecutive pieces leave and enter their common point in one direction |
| `MonotonePath.CollinearPointsStayStraight` | public/js/chart.js:16-23 | Points on one line keep the line's slope everywhere |
| `Activity.BuildActivitySeries` | public/js/board.js:446-456 | The four largest series stay, the rest becomes one, and every day's captures over all sources are unchanged |
| `Activity.BucketByWeek` | public/js/board.js:478-485 | Weeks hold the sums of their days for every series, and every series' sum is conserved |
| `Activity.WeeksOfSeries` | public/js/board.js:602-615 | Series grouped, laid out as days and bucketed into weeks: the grand total of the weeks is all captures of all sources over all days, each kept series has its own total, and the fifth that of the rest |
| `Activity.BuildRows` | public/js/board.js:606-614 | The loop lays out one row a day, with zero for a missing count |
| `Activity.WeeksPartitionDays` | public/js/board.js:479-480 | The ceil(n/7) weeks follow one another from the first to the last day; only the first can be short |
| `Activity.MovingAverage` | public/js/board.js:469-476 | Each average is the mean of its window, cut off at both ends of the range |
| `Activity.MeanIsBetween` | public/js/board.js:472-473 | A window's mean lies between its least and its greatest count |
| `Csv.DocumentReadsBack` | public/utils.js:1031-1040 | A reader for section 2 of RFC 4180 gives back exactly the guarded header and rows, for any cell text, if and only if every row has a cell |
| `Csv.GuardedIsHarmless` | public/utils.js:1018-1035 | No guarded cell reads as a formula or starts with a tab or carriage return, and the guard is added exactly where one would |
| `Csv.RecordsHaveFields` | public/utils.js:1038-1040 | The grammar has no record without a field, which is why a row without cells cannot come back |
| `Csv.ReadQuotedText` | public/utils.js:1034 | A text with its quotes doubled reads back as itself, whatever commas and line breaks it has |
| `SpoolDelivery.KeptUntilEnded` | integrations/agent-hooks-core/core.js:766-782 | From any reachable state and over any further run of any number of workers, with crashes anywhere: a kept capture is afterwards in exactly one place with its own body, unless a step of the run ended it |
| `SpoolDelivery.ExactlyOnePlace` | integrations/agent-hooks-core/core.js:846-982 | In every reachable state a kept capture that has not ended lies whole under one name and under no other |
| `SpoolDelivery.UploadIsAlone` | integrations/agent-hooks-core/core.js:955-957 | While its claim is younger than the stale limit, an upload has its capture to itself: no other file of it and no other such upload |
| `SpoolDelivery.RunEndsAreEarned` | integrations/agent-hooks-core/core.js:968-979 | A capture ends in a run only by a 2xx or a permanent refusal of an upload of its own body, or by the caps |
| `SpoolDelivery.SettleSettles` | integrations/agent-hooks-core/core.js:958-979 | Settled in time, a delivered or refused capture has no file left, any other is back under its spool name alone, and the flush goes on only after a delivery |
| `SpoolDelivery.UploadsWhatWasKept` | integrations/agent-hooks-core/core.js:875-891 | What an upload sends is the body the capture was kept with, although it was read before the claim |
| `SpoolDelivery.RunKeepsInv` | integrations/agent-hooks-core/core.js:846-982 | The invariant behind these holds after every run of file system steps |
| `SpoolMoves.NextKeepsInv` | integrations/agent-hooks-core/core.js:846-982 | Each single step keeps it: spooling, caps, recovery, reading, claiming, answers, settling, crashes, time |
| `SpoolInvariant.FileMoves` | integrations/agent-hooks-core/core.js:917-927 | A rename between a capture's own names keeps the invariant if no young upload rests on the old name |
| `SpoolDelivery.KeptStaysAlong` | integrations/agent-hooks-core/core.js:846-872 | The body of a kept capture never changes |
| `SpoolOrder.UploadsOldestFirst` | integrations/agent-hooks-core/core.js:927-957 | In every reachable state an upload takes the oldest capture its flush has left, and is at most the second of that flush |
| `SpoolOrder.DropsOldestFirst` | integrations/agent-hooks-core/core.js:826-837 | In every reachable state the caps go over the listed files oldest first |
| `SpoolCaps.DropsOnlyWhileOver` | integrations/agent-hooks-core/core.js:826-839 | In every reachable state a caps pass goes on exactly while it has files ahead and the listed files it has not removed are over 20 or 5 MB; it drops a capture only then, and then its oldest ahead |
| `SpoolCaps.NumbersAreOfWhatIsLeft` | integrations/agent-hooks-core/core.js:830-837 | In every reachable state the running excess and total of a caps pass are those of the listed files it has not removed, also when files vanish under it |
| `SpoolNames.ClaimReadsBack` | integrations/agent-hooks-core/core.js:911-924 | Out of the text of a claim, recovery reads exactly the name it was made from and the time it was made |
| `SpoolNames.OthersAreNoClaims` | integrations/agent-hooks-core/core.js:920-924 | Spool files and temporary files never read as claims |
| `SpoolNames.ListingFindsKept` | integrations/agent-hooks-core/core.js:819-823 | Listing the spool finds the kept captures and no temporary or claimed file |
| `SpoolNames.TextsDiffer` | integrations/agent-hooks-core/core.js:849-856 | Two names have the same text only if they are the same name |
| `SpoolNames.OlderSortsFirst` | integrations/agent-hooks-core/core.js:818-823 | An earlier capture has the smaller file name, as long as the clock fits in fifteen digits |
| `SpoolNames.NamesSortAsStamps` | integrations/agent-hooks-core/core.js:822 | Sorting file names sorts their stamps, although ".json" sorts behind a dash |
| `SpoolDirectory.Directory.RecoverStaleClaims` | integrations/agent-hooks-core/core.js:917-927 | The pass over a directory of texts does name by name what the specification does |
| `SpoolDirectory.RecoveryShows` | integrations/agent-hooks-core/core.js:917-927 | On texts, recovery does what it does on names, for the whole directory |
| `SpoolDirectory.RecoveryBringsHome` | integrations/agent-hooks-core/core.js:916-927 | After the pass every stale claim's contents are under its original name, everything else is where it was, and there is nothing new |
| `SpoolDirectory.ProtocolPutsBack` | integrations/agent-hooks-core/core.js:920-926 | One recovery step of the protocol is one step of the pass |
| `SpoolDirectory.Directory.EnforceSpoolCaps` | integrations/agent-hooks-core/core.js:826-839 | The oldest files go, one by one, and only as long as what is left is over 20 files or 5 MB; files that cannot be removed stay and count |
| `SpoolDirectory.CaptureIsDroppedExactly` | integrations/agent-hooks-core/core.js:826-839 | When removals succeed, a listed capture is dropped if and only if the listed files from it on are by themselves over 20 or 5 MB |
| `SpoolDirectory.NewestIsDroppedExactly` | integrations/agent-hooks-core/core.js:826-839 | The newest listed capture is dropped if and only if it is larger than 5 MB by itself |
| `SpoolDirectory.SmallCaptureCanBeDropped` | integrations/agent-hooks-core/core.js:846-872 | A capture of one character is dropped right after it was kept when twenty later stamps are listed |
| `RecallFrame.FrameOutput` | integrations/agent-hooks-core/core.js:518-542 | The block is the head, the begin line, the memory lines as far as the budget goes, the brief and the end line; it is at most maxChars long whenever the frame and brief alone are |
| `RecallFrame.FrameIsUnforgeable` | integrations/agent-hooks-core/core.js:350-364 | Whatever the memories and the brief say, the block splits at line breaks into exactly those lines, and each delimiter line occurs exactly once |
| `RecallFrame.CleanedIsInert` | integrations/agent-hooks-core/core.js:358-364 | A cleaned snippet has no line break, no three dashes in a row and no whitespace at its ends, whatever the tag removal does |
| `RecallFrame.CleanTextIsKept` | integrations/agent-hooks-core/core.js:358-364 | Text that is already clean comes through unchanged |
| `RecallFrame.MemoryLinesAreInert` | integrations/agent-hooks-core/core.js:519-524 | Each memory line stands inside the frame, numbering and truncation note included |
| `RecallFrame.BriefLinesAreInert` | integrations/agent-hooks-core/core.js:476-498 | So does each line of the brief |
| `TranscriptTail.ReadTranscriptTail` | integrations/claude-code-hooks/session-end.js:131-171 | For every block size and wanted count the backward reader returns what the forward reader's turns cut at the wanted-th last user turn are, if the ceiling is at least the file size; and always a suffix of that |
| `TranscriptTail.LastTurnsIsTheCut` | integrations/claude-code-hooks/session-end.js:129-164 | The cut is the shortest suffix of all turns with the wanted number of user turns, or all turns if there are fewer |
| `TranscriptTail.BlockStep` | integrations/claude-code-hooks/session-end.js:148-157 | One more block, with the carried end of a line, adds exactly the turns of the lines it completes |
| `TranscriptTail.CollectBackward` | integrations/claude-code-hooks/session-end.js:158-165 | The loop over a block's lines, last first, collects the last turns of these lines and stops at the wanted user turn |
| `TranscriptTail.StoppedEarly` | integrations/claude-code-hooks/session-end.js:142 | Stopping early leaves a suffix, and the full answer once enough user turns are in hand |
| `Utf8.SplitBeforeDecoding` | integrations/claude-code-hooks/session-end.js:121-129 | Cutting at newline bytes and decoding the pieces gives the lines of the decoded file, for valid and invalid UTF-8 (section 3 of RFC 3629) |
| `SessionFormat.FormatSession` | integrations/claude-code-hooks/session-end.js:185-222 | At most maxChars long whenever header + 2 fits; turns whole or clipped, in order; from 85 characters of budget on both the last user turn and the final turn are there with their fair shares; every turn left out was too long for what the two and the newer turns had left, and would not fit beside the result either |
| `SessionFormat.ServeReserved` | integrations/claude-code-hooks/session-end.js:204-213 | The earlier reserved turn gets up to half of the budget, the final one all that is left |
| `SessionFormat.ServeOthers` | integrations/claude-code-hooks/session-end.js:215-218 | The other turns go in whole or not at all; one is left out only if it was too long for what those served first and the newer ones left, and it does not fit beside the result either |
| `SessionFormat.BodyLength` | integrations/claude-code-hooks/session-end.js:200-221 | The running account of the budget is the exact length of the joined body |
| `SessionFormat.SpendKeepsAccount` | integrations/claude-code-hooks/session-end.js:202 | Spending keeps the account exact, separators included |
| `AnswerStream.AcceptedExactly` | experiments/answer-quality/run.py:53-94 | The verdict is Ok(text) if and only if the stream is a complete answer with that text: good choices ending in exactly one stop, then the only [DONE], then no data |
| `AnswerStream.ParseAnswerStream` | experiments/answer-quality/run.py:53-94 | The loop over lines returns that verdict, rejections with their reasons included |
| `AnswerEncoding.DecodesEncodedExactly` | experiments/answer-quality/run.py:53-94 | With a codec whose encodings do not decode when broken off at a line break, the stream of one event per chunk, a final stop and [DONE] is read back as the concatenated chunks if and only if every payload is on one line by Python's line ends; otherwise it is rejected |
| `AnswerEncoding.DecodesEncoded` | experiments/answer-quality/run.py:53-94 | With any codec, a stream whose payloads are on one line each is read back as the concatenated chunks |
| `AnswerEncoding.AnswerRouteExactly` | experiments/answer-quality/run.py:57 | The stream that the answer route writes with JSON.stringify is read back with its text if and only if no chunk holds U+0085, U+2028 or U+2029 |
| `AnswerEncoding.StandardReadsAnswerRoute` | src/lib/chatgpt.ts:203-218 | By section 9.2.6 of the HTML Living Standard the answer route's stream is always a complete answer, whatever the chunks hold |
| `AnswerEncoding.LineSeparatorIsRejected` | experiments/answer-quality/run.py:57-65 | A complete answer whose one chunk is U+2028 is rejected |
| `AnswerEncoding.BrokenPayloadIsRejected` | experiments/answer-quality/run.py:57-94 | Of a stream with a payload that Python breaks, neither the whole nor any prefix is accepted |
| `AnswerEncoding.TruncationIsRejected` | experiments/answer-quality/run.py:92-93 | No proper prefix of an encoded stream is accepted, wherever it is cut: for any codec if the payloads are on one line each, and for a codec whose broken encodings do not decode in any case |
| `EventFraming.FramingIsStandard` | experiments/answer-quality/run.py:57-65 | Of every text whose Python-only line ends, if any, stand in dispatched data lines, the parser sees the events of section 9.2.6 of the HTML Living Standard if and only if the text has no such line end, no dispatched bare "data" line and no dispatched data line right behind a byte order mark |
| `EventFraming.WeightsDiffer` | experiments/answer-quality/run.py:57-65 | From any position the two readings of the same lines differ in length by what was pending and by one for every dispatched bare "data" line |
| `EventFraming.ParserEventsHaveNone` | experiments/answer-quality/run.py:57-65 | No event that the parser sees holds a line end that only Python knows |
| `EventFraming.BareDataIsLost` | experiments/answer-quality/run.py:59-63 | A text of a bare "data" line: one empty event by the standard, none in the parser |
| `EventFraming.BreakIsLost` | experiments/answer-quality/run.py:57-60 | A Python-only line end within any data line cuts the event off there, if what follows is no data line; LineSeparatorIsLost is one input |
| `EventFraming.MarkIsLost` | experiments/answer-quality/run.py:57-60 | The parser misses a data line right behind a byte order mark |
| `EventFraming.BreakInComment` | experiments/answer-quality/run.py:57-63 | In a comment such a line end may do no harm or add an event, so no condition on its presence alone is exact there |
| `AnswerStream.TakeThroughDone` | experiments/answer-quality/run.py:66-72 | The first [DONE] has to follow a stop and to be the last event |
| `Config.ResolvedIsSound` | src/config.ts:423-467 | For every stored blob: numbers in range and whole where required, modes in their sets, the fixed model fixed, no blank text, both orderings hold |
| `Config.WritesResolveToOverlay` | src/config.ts:547-570 | After any run of writes the store resolves to the defaults overlaid by the accepted patches in order, if and only if the log mode among them is a known one |
| `Config.UnknownLogModeIsStored` | src/config.ts:504-540 | An unknown log mode passes the strict check, is stored, and resolves to "off" |
| `Config.RunKeepsWell` | src/config.ts:560-570 | In any run of writes and resets nothing is stored that equals its default or would not pass the strict check |
| `Config.ResetRestoresDefault` | src/config.ts:572-581 | For every blob, after a reset the setting resolves to its default and every setting outside its group is as it was |
| `Config.UnrelatedWriteIsStoredExactly` | src/config.ts:547-558 | A checked patch that touches neither ordered group is stored if and only if the stored overrides keep both groups in order |
| `Config.ResetCanBlockWrites` | src/config.ts:556-581 | Resetting one of a pair can leave the pair out of order, and then unrelated writes are refused |
| `Config.CoerceIsValid` | src/config.ts:361-419 | Repair always ends in a valid value and leaves a valid one alone |
| `Config.OrderedHolds` | src/config.ts:456-462 | A group that falls back to its defaults is in order, and the other group is not touched |
| `Config.KeptResolves` | src/config.ts:430-467 | A well-kept store with ordered groups resolves to its overrides as they are, but for an unknown log mode |
| `Config.Store.ResolveConfig` | src/config.ts:430-467 | The read loop and the loop over the groups compute Resolved |
| `Config.Store.WriteOverrides` | src/config.ts:547-570 | A refused write leaves the store as it was and says why; an accepted one stores the merge without defaults; it is accepted exactly when Storable |
| `Config.Store.ReadOverrides` | src/config.ts:483-502 | The loop collects exactly the active overrides |
| `Config.Store.ResetOverride` | src/config.ts:576-581 | A reset removes the one override and nothing else |
| `ConfirmSheet.RunKeepsInv` | public/js/confirm-sheet.js:42-256 | The books on every question balance after any interleaving of calls |
| `ConfirmSheet.CloseRunsOnce` | public/js/confirm-sheet.js:53-64 | A question's onClose has run exactly once when the question is no longer on screen, and not before |
| `ConfirmSheet.OneActionInFlight` | public/js/confirm-sheet.js:227-256 | A question's starts are its settlements plus at most one: its action is never in flight twice |
| `ConfirmSheet.ButtonIsHeldDown` | public/js/confirm-sheet.js:246-252 | While the action of the question on screen runs, its accept button is held down |
| `ConfirmSheet.FailureCanBeRetried` | public/js/confirm-sheet.js:248-255 | A failed action gives the button back, and accepting again starts a new attempt |
| `ConfirmSheet.EarlierActionsAreInert` | public/js/confirm-sheet.js:208-226 | Handles and outcomes of superseded questions, however many, change nothing about the question on screen |
| `ConfirmSheet.FocusReturnsToThePage` | public/js/confirm-sheet.js:45-62 | Focus returns to where it was before the first of the questions, however often it was replaced |
| `ConfirmSheet.TickIsNotInherited` | public/js/confirm-sheet.js:166-177 | A question starts unticked and stays so until its own user ticks it |
| `ConfirmSheet.Sheet.OpenDangerConfirm` | public/js/confirm-sheet.js:140-188 | Opening does the Open step, the superseded question's onClose first |
| `ConfirmSheet.Sheet.RunConfirmAction` | public/js/confirm-sheet.js:227-247 | Accepting does the Accept step and tells whether an action was started |
| `Migration.Window.StepLoop` | installer/src/settings.ts:432-502 | If the remaining count starts at R and never rises, the loop makes at most 2R + 3 calls and ends in the one phase that its last answer and a pause determine; beside another loop it does nothing |
| `Migration.BoundIsReached` | installer/src/settings.ts:486-496 | Against a Worker that reports every count twice nothing ends the loop before call 2R + 3 |
| `Migration.StretchIsLoopBody` | installer/src/settings.ts:441-497 | In the interleaved model the loop ends or goes on exactly as the loop run alone |
| `Migration.OneLoopAtATime` | installer/src/settings.ts:432-434 | Over all interleavings of buttons and answers there is at most one loop, and a batch is in flight only in the running phase |
| `Migration.LaunchIsLostExactly` | installer/src/settings.ts:421-511 | A step leaves the running phase without a loop if and only if it launches one while `looping` is still set |
| `Migration.LaunchCanBeLost` | installer/src/settings.ts:453-462 | Such a launch happens: the finished loop still waits for its refresh when a new rebuild is begun |
| `Migration.LostForever` | installer/src/settings.ts:293-296 | After it no later call brings a loop or another phase |
| `Migration.FreedAfterReload` | installer/src/settings.ts:387-391 | After a reload of a finished run, what it left over can be freed once its name has come |
| `Migration.RunKeepsInv` | installer/src/settings.ts:399-566 | The invariant behind these holds in every run |
| `ClusterChoices.NearnessLaw` | public/utils.js:757 | Of two numbers of uses d < e, d is nearer to the square root of N exactly if d * e > N, and they tie exactly if d * e == N |
| `ClusterChoices.OneSide` | public/utils.js:757 | On one side of the square root the number farther out ranks behind |
| `ClusterChoices.PickIsNearest` | public/utils.js:759-789 | A node without a project is picked for a tag on offer (shared topic tags before shared axis tags) that no other tag on offer beats by that law, ties going to the first name; it is loose if nothing is on offer |
| `ClusterChoices.FoldGoesToLargest` | public/utils.js:791-808 | A node leaves its pick only if fewer nodes than the least size were picked for it, and goes to one of its tags with enough picks and at least as many as any other; it gets loose only if none of its tags has enough |
| `ClusterChoices.MinOuterIsOnePercent` | public/utils.js:792 | The least size is within half of a hundredth of N, and never below three |
| `ClusterChoices.PlacedWherePulled` | public/utils.js:838-860 | A node placed in a round goes where its neighbours' edges pull most, and of equal pulls to the first name |
| `ClusterChoices.OneEdgePulls` | public/utils.js:829-835 | An edge to a neighbour pulls to that neighbour's cluster alone, by its weight, or by 1 if that is missing or zero |
| `ClusterLaws.WeightOfConcat` | public/utils.js:843-849 | Pulls of edges add up |
| `ClusterChoices.SubTopicExactly` | public/utils.js:862-890 | A node has a sub-topic if and only if it is in a cluster and one of its tags, not the cluster's own, is carried there by two nodes and by no more nodes outside than inside; its sub-topic is such a tag |
| `ClusterChoices.SubTopicIsCommonest` | public/utils.js:873-888 | Of all such tags a node's sub-topic has most uses within; of those with as many, fewest uses in all; of those with as many, the first name |
| `CircleGrid.SamplesAreEvenGrid` | public/utils.js:946-950 | The samples of a ring are at least eight points, the first on the ring and each the one before turned by one and the same share of a full turn |
| `CircleGrid.SamplesAreClose` | public/utils.js:946 | Their distance along the ring is at most max(6, r) and a sixteenth of that; beyond eight points there are no more than that takes |
| `CircleGrid.RingsAreEven` | public/utils.js:943-945 | Rings are max(3, r / 2) apart, the first as far from the middle |
| `CircleGrid.LiesNoFartherOut` | public/utils.js:929-965 | For each ring up to the fallback radius there is such an even grid on it that the placed circle lies no farther out than the ring if any point of the grid is far enough from all circles before; one grid serves whatever those circles are |
| `CircleGrid.LiesOnRingOrClear` | public/utils.js:940-961 | Every circle but the first lies on one of these rings or at the fallback radius |
| `MonotoneTangents.ParabolaKeepsItsSlope` | public/js/chart.js:16-18 | On evenly spaced points of a parabola the slope chosen at a point is the parabola's own, and level where it turns between the neighbours |
| `MonotoneTangents.TurnOfSegment` | public/js/chart.js:19-23 | A segment's turn changes its own two slopes at most: a level segment gets level slopes, ratios within the circle of radius 3 are kept, any others end on the circle in their proportion |
| `MonotoneTangents.InsideIsKept` | public/js/chart.js:21-22 | Slope ratios within the circle of radius 3 stay as they are |
| `MonotoneTangents.OutsideEndsOnCircle` | public/js/chart.js:22 | Ratios outside it end on the circle, on the line to the origin |
| `MonotoneTangents.SlopesAreKeptExactly` | public/js/chart.js:16-23 | The path has the slopes it started from if and only if every segment's two are within the circle; at both ends these are the end secants |
| `SpoolAnswers.AnswerIsCarriedOut` | integrations/agent-hooks-core/core.js:958-979 | An upload is answered, other workers do anything, and the flush settles before its claim is stale: a delivered or permanently refused capture then has no file at all, any other lies whole under its spool name alone, and the flush goes on if and only if the capture was delivered |
| `SpoolFlush.FlushTakesOut` | integrations/agent-hooks-core/core.js:927-982 | A flush that runs undisturbed to its end leaves the directory as it was but for the oldest Gone captures, however its steps fall |
| `SpoolFlush.GoneIs` | integrations/agent-hooks-core/core.js:935-979 | Gone, answer by answer: two after two deliveries or a delivery and a refusal, one after a refusal or a delivery and a failure, none after a failure |
| `Utf8Encoding.DecodesEncoding` | integrations/claude-code-hooks/session-end.js:158 | What section 3 of RFC 3629 encodes is read back, for every text of scalar values |
| `Utf8Encoding.ComesBackExactly` | integrations/claude-code-hooks/session-end.js:158 | For all bytes: decoding gives a text of scalar values, and encoding that gives the bytes back if and only if no byte and no end called for a replacement |
| `TranscriptTail.EmptyLinesAreSkipped` | integrations/claude-code-hooks/session-end.js:160 | An empty line makes no turn |
| `TranscriptTail.OneLineIsOneTurn` | integrations/claude-code-hooks/session-end.js:158-165 | A line that is not empty makes the turn its parser gives, or none |
| `RecallWords.CleanedIsWords` | integrations/agent-hooks-core/core.js:358-364 | A snippet is the words of the text with its dashes folded, each as it was, in order and one space apart |
| `RecallWords.FoldingTakesDashesOnly` | integrations/agent-hooks-core/core.js:361 | Folding changes nothing but dashes |
| `RecallWords.EachSpeaksInTurn` | integrations/agent-hooks-core/core.js:519-524 | Each memory with four characters to show has one line, behind those of the memories before it, with its rank, the longest start of its snippet within the limit, and the note if it was cut and has an id; no other memory has a line |
| `SessionFormat.RenderedShows` | integrations/claude-code-hooks/session-end.js:192-198 | A turn is shown under its speaker; the person's words and the final turn whole, other narration up to the cap and an ellipsis |
| `ConfigRepair.RepairIsNearest` | src/config.ts:412-418 | No number valid for a setting is nearer to the stored number than the repaired one |
| `ConfigRepair.InvalidFallsBack` | src/config.ts:361-411 | Anything else invalid becomes the default, or "off" where there are modes |
| `ConfigRepair.StrictExactly` | src/config.ts:504-540 | The strict check accepts exactly the valid values, but for the log mode, where it accepts every text that is not blank |
| `ConfirmSheet.QuestionComesUp` | public/js/confirm-sheet.js:140-188 | A question comes up with its caption, button free, box unticked, as the one owner of the sheet, and the question it supersedes is told |
| `ConfirmSheet.HandlesOfCurrentAct` | public/js/confirm-sheet.js:235-244 | The handles of the question on screen work: done takes it down, gives the focus back and calls its onClose; progress changes the caption and nothing else |
| `ConfigRepair.NumbersInOrder` | src/config.ts:348-359 | For every stored blob the resolved block threshold is greater than the flag threshold, and the floors are volatile <= plain <= durable, as numbers |
| `ConfigRepair.FallsBackExactly` | src/config.ts:442-462 | A setting resolves to its repaired value if and only if the repaired numbers of its group are in that order (or it has no group); the defaults come for the whole group |
| `Migration.PauseTakesEffect` | installer/src/settings.ts:474-483 | After a pause in a running rebuild, the next batch that does not end the loop itself leaves the window paused with no loop |
| `Migration.OldPauseIsForgotten` | installer/src/settings.ts:504-511 | A pause pressed before the last begin, resume or start over stops nothing |
| `ConfirmSheet.TickReachesTheAction` | public/js/confirm-sheet.js:227-249 | An action is told the tick as it was last set, whatever handles and outcomes come between |
| `ConfirmSheet.ButtonComesBackOnlyBy` | public/js/confirm-sheet.js:246-255 | A button that is held down comes back only with a new question or with a failure of the current one's action; a success leaves it down |
| `Migration.RequestIsAnswered` | installer/src/settings.ts:399-566 | In every run a begin, start over or free that is refused leads back to the screen that made it, whatever happens meanwhile; granted, the rebuild runs with no progress shown and no pause pending, or what was freed has no name left |
| `Activity.MeanIsOfSevenDays` | public/js/board.js:469-476 | Away from the ends an average is a seventh of the counts of the day and of three days on either side |
| `ClusterLaws.FoldIsUnique` | public/utils.js:795-808 | The first of the largest refuges among a node's own tags is one tag, so the fold too leaves one possible cluster |

## Left out

- GraphClusters.AssignGraphClusters: nodes come with the tags that survive the system-tag filter (public/utils.js:608-641), each once, and with the first slug of their project tags; the filter's name lists, the slug pattern and the trimming are not modelled. Node ids are distinct. Distance and weights are exact reals, and |log(d / sqrt(N))| is compared through the ratio of squares, which orders it the same way; a tie that only floating point makes or breaks is not seen.
- CirclePacking.PackGraphCircles: real arithmetic; cos and sin are any functions with cos² + sin² = 1, hypot any function with its defining equation; where the grid of a ring matters (`CircleGrid`), cos and sin have their addition laws too. pi is the literal of its double.
- MonotonePath.PathIsMonotone: real arithmetic; the path is its pieces, not the SVG text.
- SpoolDelivery.KeptUntilEnded: one file system call is one step; listing a directory and looking up its file sizes is one step too; a rename or removal fails only when its file is gone; the clock does not go back; stamps and claim names are never drawn twice. Permissions, symbolic links, fsync and the JSON of a spool file are left out: a file's contents are its capture's body, and a read may find it unreadable.
- SpoolDelivery.UploadIsAlone: says nothing about claims that reach the stale limit while their upload still runs; the code then lets another flush take the capture.
- SpoolFlush.FlushTakesOut: the flush reads every listed file and no deadline ends it early; what a deadline, an unreadable file, a crash or another process does is covered by the results over all runs alone.
- SpoolDirectory.Directory.RecoverStaleClaims: Number on texts that are not plain digits is an arbitrary function.
- SpoolDirectory.Directory.EnforceSpoolCaps: size is the length of the contents, and the listing is given.
- RecallFrame.FrameIsUnforgeable: memory ids and the finished line about changes are taken to be free of line breaks and triple dashes; the wording of that line (core.js:366-474) is not modelled. Tag removal is an arbitrary function; idempotence of the cleaning does not hold and is not claimed.
- TranscriptTail.ReadTranscriptTail: parsing a line into a turn is an arbitrary function, so redaction and wrapper patterns are not part of this model; the file does not change while it is read.
- SessionFormat.FormatSession: the header is a given text.
- AnswerStream.AcceptedExactly: JSON decoding is an arbitrary function into the parts that the parser looks at; a value on which the Python code would raise an error of another kind is Malformed.
- Config.ResolvedIsSound: time zone and contact checks, and comparisons of values of different types, are arbitrary; `__proto__` as a key and properties that an inherited name adds to the resolved object are left out.
- Config.Store.WriteOverrides: the key-value store is one cell that reads back what was written; an outage reads as no overrides, and error texts are reduced to their kind.
- ConfirmSheet.RunKeepsInv: callbacks do not open or close the sheet synchronously; labels and styling are left out.
- Migration.Window.StepLoop: run with nothing else pressed but pause; the interleavings are in Migration.Step. Loading the pane and picking a model are single calls.
- Activity.BuildActivitySeries: counts are natural numbers and no smaller source has more of them than there are days; labels and dates are left out.
- EventFraming.FramingIsStandard: says nothing about texts with a Python-only line end outside dispatched data lines, where such a line end may be harmless, add an event or dispatch one early (`EventFraming.BreakInComment`). Event names, ids and retry times are not compared.
- AnswerEncoding.DecodesEncodedExactly: the codec is arbitrary but for two facts of JSON, that decoding inverts encoding and that an encoding broken off at a line break, alone or with a line feed behind it, does not decode.
- Csv.DocumentReadsBack: a cell is absent or a text; String() of other values is not modelled.
- Strings are sequences of characters; UTF-16 surrogate pairs are not told apart from other characters.
- packGraphNodes, niceMax, the staged settings and inspect_answer: a closed formula for each node, a table lookup, one map update and a row of counts; no loop, state or second definition that a theorem could relate them to. stackSeries is a running sum that the drawing alone uses.
- Drawing, styling, texts of the interface, network calls, the keychain, the Worker's routes and stores, the service worker and the installers.
- Exclusiveness of claimCapture for changing contents and at-most-once opening of due links: the code does not promise them.
