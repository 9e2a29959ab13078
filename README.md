# devops-dashboard core, modelled in Dafny

This project models the discrete logic of a small DevOps monitoring dashboard. The backend is written in Node.js and the frontend in React. Four parts are covered:

- **Log handling** (`backend/src/services/logWatcher.js`):
  - the parsers for nginx's "combined" access-log lines and error-log lines;
  - the two one-shot readers that return the last `limit` parsed lines, most recent first;
  - the statistics over the last thousand access lines;
  - the tailing watcher that follows a growing access log with a closure cursor `lastSize`.
- **Per-connection subscription handling** (`backend/src/websocket/socketHandler.js`). Each socket carries two optional handles, a metrics interval and a log watcher. The `subscribe:*`, `unsubscribe:*` and `disconnect` handlers set, release and null these handles. Whatever a socket is sent is appended to its outbox.
- **Deployment records** (`backend/src/services/deployment.js`):
  - the fallbacks used when reading the deployment file and the history file;
  - the field merge with defaults;
  - the history bounded to 20 entries;
  - the service-health decision.
- **Frontend helpers**:
  - the colour of a status code and the 50-entry live log window (LogViewer);
  - the two uptime formats (MetricsCards, DeploymentInfo);
  - the service colour and the fallback texts (DeploymentInfo);
  - the chart labels and data series (MetricsChart);
  - the 60-sample metrics window (App).

## How the model is cut

- **Project layout.** Each source file becomes one or more modules:
  - `logWatcher.js` is modelled by `pattern.dfy`, `access_log.dfy`, `error_log.dfy`, `log_reader.dfy`, `tally.dfy` (module `Counting`), `log_stats.dfy` and `log_tail.dfy`;
  - `socketHandler.js` by `socket_hub.dfy`;
  - `deployment.js` by `deployment.dfy`;
  - each frontend component by a file of its own.
  - JavaScript's string and array operations (`trim`, `split('\n')`, `filter`, `slice`, `reverse`, the regex character classes, decimal rendering) are written out in `text.dfy` and `common.dfy`.
- **Regular expressions.** They are not modelled by a regex engine. Each expression is a start anchor and a list of groups. Each group is a run of one character class followed by a literal. Each literal starts with a character that its group's class refuses. So a greedy left-to-right scanner finds exactly the matches and captures of the expression:
  - `Pattern.MatchExact` proves the scanner sound and complete for that shape;
  - `Pattern.MatchRender` proves it inverts rendering.
- **Pure code is functions, imperative code is methods.**
  - `getLogStats` is a method: its `forEach` increments two dictionaries. The dictionaries are modelled as insertion-ordered counters.
  - The tailing watcher is the class `LogTail`. Its field `lastSize` is updated by `OnChange`.
  - The socket handlers are methods of the class `Hub`.
  - `addToHistory` and `checkServicesHealth` are methods that update their result step by step.
  - Each method's `ensures` ties it to a specification function, or states the whole new state.
- **Inputs, never actions.** File existence and content, thrown exceptions, command outputs, the clock and fetched metrics samples are all parameters:
  - `FileState` is `Missing`, `Unreadable(reason)` or `Present(content)`;
  - `Probe` is `Threw` or `Output(text)`;
  - `Option<Sample>` is `None` when fetching a sample threw.

### Where the model follows the code rather than the documented intent

- **Truncated log file.** The tailing watcher does not reset its cursor when the file shrinks. After a truncation or rotation, nothing is read until the file grows beyond the old size again (`LogTail.TruncationIgnored`).
- **Partial lines.** The watcher does not hold back a partial trailing line. Each growth event reads from the cursor to the reported size and splits that chunk on its own, so a line written in two parts reaches the parser as two fragments (`LogTail.SplitLineDelivery`). Each fragment is dropped, or is parsed, on its own.
- **Read range.** The read stream's `end` is inclusive. At most `currentSize + 1 - lastSize` characters are read, clamped to the file.
- **Metrics subscription.** `subscribe:metrics` is not guarded. A second subscription starts another interval and overwrites the stored handle, and the earlier interval stays live with nothing referring to it. `subscribe:logs` is guarded.
- **Disconnect.** `disconnect` releases both handles but leaves them stored in `socket.data`.
- **Unreachable branches.**
  - The `Failed to watch log files` error in `subscribe:logs` cannot be emitted. `watchLogFile` catches its own exceptions and returns null, and a null watcher leaves the handle unset, so a later subscription tries again.
  - The `catch` branches of `parseAccessLog` and `parseErrorLog` cannot be reached either, because nothing in them throws.
- **Deployment merge.** The spread comes last in `updateDeployment`, so any key present in the input wins, even with a falsy value. The defaults apply only to absent keys.
- **Nginx probe.** The systemctl command in `checkServicesHealth` ends in `|| echo "inactive"`, so in practice it does not throw and the `pgrep` fallback is rarely reached. The model still covers every branch.
- **Reader limit.** The readers take `limit: int` and accept any value. `slice(-limit)` is modelled exactly, including `slice(-0)` returning every line. The properties about the window are stated for `limit >= 1`.

## Model

| member | source | states |
|---|---|---|
| Pattern.Span | backend/src/services/logWatcher.js:130 | a greedy class run takes the longest prefix inside the class and stops at the first character outside it |
| Pattern.SpanOfRun | backend/src/services/logWatcher.js:130 | a run of the class followed by a character outside it is taken exactly |
| Pattern.Match | backend/src/services/logWatcher.js:130-131 | a successful anchored match yields one capture per group |
| Pattern.MatchRender | backend/src/services/logWatcher.js:130-131 | rendering captures that fit their classes and then matching, with any trailing text, gives back exactly those captures |
| Pattern.MatchSound | backend/src/services/logWatcher.js:130-131 | the captures of a match fit their groups and render to a prefix of the line |
| Pattern.MatchExact | backend/src/services/logWatcher.js:130-131 | the scanner matches iff the line starts with a rendering of fitting captures, and then returns those captures, which are unique |
| Pattern.RenderEndsWithLastLiteral | backend/src/services/logWatcher.js:130 | a rendered line ends with the last group's literal |
| AccessLog.CombinedUnambiguous | backend/src/services/logWatcher.js:130 | every group of the combined expression ends at the first occurrence of its terminator |
| AccessLog.DashAsNull | backend/src/services/logWatcher.js:139-146 | a captured `-` user or referer becomes null, and everything else is kept |
| AccessLog.ParseAccessLog | backend/src/services/logWatcher.js:127-153 | a record exactly when the line matches the combined expression, built from its captures; null otherwise |
| AccessLog.LacksAllIn | backend/src/services/logWatcher.js:130 | a field without the terminator `c` lies in the class `[^c]` |
| AccessLog.FieldsFit | backend/src/services/logWatcher.js:130 | the fields of a loggable record fit the ten groups |
| AccessLog.FieldsRecord | backend/src/services/logWatcher.js:137-148 | the captures of a loggable record build that record back; `-` stands for null and the digits for status and size |
| AccessLog.ParseFormatted | backend/src/services/logWatcher.js:125-148 | round trip: the combined line of a loggable record, with any trailing text, parses to that record |
| AccessLog.CapturesUnique | backend/src/services/logWatcher.js:130 | a line starts with the rendering of at most one capture list |
| AccessLog.FormattedEnds | backend/src/services/logWatcher.js:125 | a combined line starts with the IP and ends with `"`, neither of them whitespace |
| ErrorLog.MatchFormatted | backend/src/services/logWatcher.js:161-176 | an error line of an admissible record, followed by nothing or a line terminator, matches to that record |
| ErrorLog.MatchErrorSound | backend/src/services/logWatcher.js:161-176 | a match is an admissible record whose line starts the input, with the 19-character prefix as timestamp |
| ErrorLog.SplitsAsFormatted | backend/src/services/logWatcher.js:161 | the parts the scanner cuts out render back to a prefix of the line |
| ErrorLog.MatchErrorComplete | backend/src/services/logWatcher.js:161-162 | every line that starts with an admissible record's line matches |
| ErrorLog.ParseErrorLog | backend/src/services/logWatcher.js:158-184 | a line of the error-log shape yields its date-time, level and message; any other line yields level `unknown` with the whole line as message and the current time, and is never dropped |
| ErrorLog.ParseFormatted | backend/src/services/logWatcher.js:161-176 | round trip: the line of an admissible record parses to that record, whatever the clock |
| LogReader.ParseAll | backend/src/services/logWatcher.js:26 | `map(parse)` keeps length and position |
| LogReader.ReadLogShape | backend/src/services/logWatcher.js:8-73 | for either reader: a missing file gives no logs, total 0 and the not-found error; an unreadable file gives its message; otherwise total is the number of non-empty trimmed lines, and at most min(limit, total) records come back |
| LogReader.ReadLogWindow | backend/src/services/logWatcher.js:20-30 | for either reader: the logs are the parsed last min(limit, total) lines with nulls dropped, reversed, so a parsing last line comes first |
| LogReader.ReadLogAllParse | backend/src/services/logWatcher.js:23-29 | when the last `limit` lines all parse, exactly min(limit, total) records come back, newest first |
| LogReader.RecentOfParsed | backend/src/services/logWatcher.js:23-29 | the records returned are the last min(limit, n) parsed lines, reversed |
| LogReader.SomesOfParsed | backend/src/services/logWatcher.js:26 | when every line parses, dropping nulls keeps every record in order |
| LogReader.ReadLogNewestFirst | backend/src/services/logWatcher.js:29 | when the last line parses, it comes first |
| LogReader.ReadAccessLogs | backend/src/services/logWatcher.js:8-40 | `Log file not found` for a missing file, the exception message for an unreadable one, the count of all non-empty lines as total, and at most min(limit, total) records |
| LogReader.ReadAccessLogsWindow | backend/src/services/logWatcher.js:19-30 | the access records returned are those of the last min(limit, total) lines that parse, newest first; the last line's record, when it parses, comes first |
| LogReader.ErrorRecords | backend/src/services/logWatcher.js:59 | every line becomes one error record, in position |
| LogReader.ReadErrorLogs | backend/src/services/logWatcher.js:45-73 | `Error log file not found` or the exception message on failure; otherwise the logs are exactly the last min(limit, total) lines parsed and reversed, so none is dropped and the first comes from the last line |
| LogReader.AccessLines | backend/src/services/logWatcher.js:125 | the combined line of each record, in order |
| LogReader.AccessFileLines | backend/src/services/logWatcher.js:20 | a file of combined lines, one per line feed, splits back into exactly those lines |
| LogReader.AccessLinesParse | backend/src/services/logWatcher.js:26 | each combined line parses to its record |
| LogReader.AccessFileRead | backend/src/services/logWatcher.js:19-31 | reading a file written from records gives total = number of records and the last min(limit, n) records, newest first |
| LogReader.ErrorLines | backend/src/services/logWatcher.js:160 | the error line of each record, in order |
| LogReader.ErrorLineEnds | backend/src/services/logWatcher.js:56 | an error line has no line feed and no whitespace at either end |
| LogReader.ErrorFileLines | backend/src/services/logWatcher.js:56 | a file of error lines splits back into exactly those lines |
| LogReader.ErrorLinesParse | backend/src/services/logWatcher.js:59 | the error lines parse back to their records |
| LogReader.ErrorFileRead | backend/src/services/logWatcher.js:55-63 | reading a file written from error records gives total = number of records and the last min(limit, n) records, newest first |
| Counting.Empty | backend/src/services/logWatcher.js:90-91 | `{}` is a well-formed counter with no keys |
| Counting.Increment | backend/src/services/logWatcher.js:95-98 | counting one more occurrence of k raises k's count by one, changes no other count, and appends k to the key order when it is new |
| Counting.Tally | backend/src/services/logWatcher.js:93-99 | counting a sequence gives a well-formed counter with at most one key per element |
| Counting.TallyCounts | backend/src/services/logWatcher.js:93-99 | every count is the element's number of occurrences, and the keys are exactly the elements |
| Counting.TallySnoc | backend/src/services/logWatcher.js:93-99 | counting one more element is one more increment |
| Counting.TallyPrefix | backend/src/services/logWatcher.js:93-99 | the count of a prefix one longer is one increment more |
| Counting.SumOverOther | backend/src/services/logWatcher.js:95 | changing an uncounted key does not change the sum |
| Counting.SumOverBump | backend/src/services/logWatcher.js:95 | raising a listed key by one raises the sum by one |
| Counting.IncrementTotal | backend/src/services/logWatcher.js:95 | an increment raises the total by exactly one |
| Counting.NewKeyTotal | backend/src/services/logWatcher.js:95 | a new key with count 1 raises the sum by one |
| Counting.TallyTotal | backend/src/services/logWatcher.js:93-99 | the counts add up to the number of elements |
| Counting.EntriesOf | backend/src/services/logWatcher.js:102 | `Object.entries` pairs each key with its count, in key order |
| Counting.Insert | backend/src/services/logWatcher.js:103 | inserting into a count-descending list keeps it descending and adds exactly that entry |
| Counting.DescendingTail | backend/src/services/logWatcher.js:103 | the tail of a descending list is descending |
| Counting.InsertStep | backend/src/services/logWatcher.js:103 | an insertion behind the head keeps the list descending and adds exactly the entry |
| Counting.InsertHead | backend/src/services/logWatcher.js:103 | a head at least as large as everything behind it keeps the list descending |
| Counting.SortByCount | backend/src/services/logWatcher.js:103 | the sort by count is non-increasing and a permutation of its input |
| Counting.ConsMultiset | backend/src/services/logWatcher.js:103 | a list's elements are its head plus its tail's elements |
| Counting.InsertKeepsTies | backend/src/services/logWatcher.js:103 | an insertion puts the new entry in front of those with its count and keeps the order among each count's entries |
| Counting.SortByCountStable | backend/src/services/logWatcher.js:103 | the sort is stable: entries with equal counts keep their `Object.entries` order, as `Array.prototype.sort` must since ECMAScript 2019 |
| Counting.Twice | backend/src/services/logWatcher.js:102 | an element at two positions occurs at least twice |
| Counting.AtMostOnce | backend/src/services/logWatcher.js:102 | in a list without repeats, every element occurs at most once |
| Counting.SameElements | backend/src/services/logWatcher.js:103 | a permutation has the same length and the same elements |
| Counting.EntriesDistinct | backend/src/services/logWatcher.js:102 | the entries of a counter are pairwise distinct |
| Counting.TopTenEntries | backend/src/services/logWatcher.js:102-105 | the top list has min(10, keys) entries, descending, each a key with its true count |
| Counting.TopTenDistinct | backend/src/services/logWatcher.js:102-105 | no path appears twice in the top list |
| Counting.TopTenMaximal | backend/src/services/logWatcher.js:102-105 | a key left out of the top list counts no more than any entry kept |
| Counting.SortedPosition | backend/src/services/logWatcher.js:103 | every key's entry is somewhere in the sorted list |
| Counting.BeyondTop | backend/src/services/logWatcher.js:104 | in a descending list, an entry beyond the first n counts no more than each of them |
| Counting.TallyCountsOf | backend/src/services/logWatcher.js:93-99 | the tally counts its sequence: the counts are the occurrences and add up to its length |
| Counting.KeysInTop | backend/src/services/logWatcher.js:104 | with fewer than ten keys, every key is in the top list |
| Counting.TallyTopMaximal | backend/src/services/logWatcher.js:102-105 | a path left out of the top list means ten were kept, each requested at least as often |
| Counting.TallyTop | backend/src/services/logWatcher.js:102-105 | the top list holds the most requested paths: at most ten distinct ones with their true counts, in non-increasing order, and nothing left out beats an entry kept |
| Counting.TallyTopKept | backend/src/services/logWatcher.js:102-105 | the entries kept are at most ten distinct elements with their occurrence counts, descending |
| LogStats.Statuses | backend/src/services/logWatcher.js:95 | the status of each record, in order |
| LogStats.Paths | backend/src/services/logWatcher.js:98 | the path of each record, in order |
| LogStats.GetLogStats | backend/src/services/logWatcher.js:78-121 | over the records of the last thousand lines: totalRequests is their number, the status counts are per-code occurrences adding up to it, the top paths are the ten most requested; no records gives zeros and empty collections |
| LogStats.Summarize | backend/src/services/logWatcher.js:82-111 | the figures summarize the records, and empty input gives `{0, {}, []}` |
| LogStats.CountRequests | backend/src/services/logWatcher.js:90-99 | the `forEach` builds exactly the tallies of the status codes and of the paths |
| LogStats.CountPairs | backend/src/services/logWatcher.js:93-99 | one pass counting two parallel sequences gives both tallies |
| LogStats.TalliesSummarize | backend/src/services/logWatcher.js:90-110 | the tallies and their top ten satisfy every property of the statistics |
| LogTail.ReadRange | backend/src/services/logWatcher.js:199-202 | the stream reads from `start` to `end` inclusive, clamped to the file, and never more |
| LogTail.ChunkRecords | backend/src/services/logWatcher.js:210-216 | at most one record per non-empty line of the trimmed chunk |
| LogTail.TailStep | backend/src/services/logWatcher.js:193-221 | the cursor never decreases; it changes iff a `change` event reports a size beyond it, and then becomes that size; otherwise nothing is emitted |
| LogTail.RunCursor | backend/src/services/logWatcher.js:194-219 | after any run the cursor is at least its start and every size a `change` reported, and it is its start or one of those sizes |
| LogTail.RunQuiet | backend/src/services/logWatcher.js:197 | events reporting no size beyond the cursor emit nothing and leave the cursor alone |
| LogTail.ChunkOfWholeLines | backend/src/services/logWatcher.js:210-216 | a chunk of whole combined lines yields exactly their records, in file order |
| LogTail.AppendedLinesEmitted | backend/src/services/logWatcher.js:193-219 | whole lines appended behind the cursor are handed over exactly, in order, and the cursor moves to the end |
| LogTail.SplitLineDelivery | backend/src/services/logWatcher.js:199-216 | a line written across two events is parsed as two separate fragments |
| LogTail.TruncationIgnored | backend/src/services/logWatcher.js:195-197 | after the file shrinks below the cursor, no event reads anything until it grows beyond it again |
| LogTail.ReadStream | backend/src/services/logWatcher.js:199-207 | the `data` chunks concatenated give exactly the read range |
| LogTail.EmitParsed | backend/src/services/logWatcher.js:209-216 | the callback receives exactly the records of the chunk, in line order |
| LogTail.KeepParsed | backend/src/services/logWatcher.js:211-215 | the loop keeps exactly the accepted values, in order |
| LogTail.ParseAllSnoc | backend/src/services/logWatcher.js:211-212 | parsing one more line appends its result |
| LogTail.LogTail.constructor | backend/src/services/logWatcher.js:191 | the cursor starts at the file size, or 0 when the file is absent |
| LogTail.LogTail.OnChange | backend/src/services/logWatcher.js:193-221 | the callback's effect on the cursor and the records it hands over are exactly one `TailStep` |
| LogTail.WatchLogFile | backend/src/services/logWatcher.js:189-229 | a fresh watcher with the initial cursor, or null exactly when `fs.watch` throws |
| SocketHub.TickEmission | backend/src/websocket/socketHandler.js:30-36 | a tick emits the sample, or the `Failed to fetch metrics` error when fetching threw |
| SocketHub.LogNews | backend/src/websocket/socketHandler.js:50-52 | one `log:new` per record, in order |
| SocketHub.DistinctAdd | backend/src/websocket/socketHandler.js:50 | a new watcher object keeps watchers distinct |
| SocketHub.Hub.constructor | backend/src/websocket/socketHandler.js:11-12 | a server with no sockets, no live timers and no live watchers |
| SocketHub.Hub.Connect | backend/src/websocket/socketHandler.js:12-22 | a new socket with neither handle; its outbox holds the one preview `metrics:update`, or nothing when fetching failed; everything else is unchanged |
| SocketHub.Hub.SubscribeMetrics | backend/src/websocket/socketHandler.js:25-41 | a new live interval owned by the socket, whose handle now names it; any earlier interval stays live |
| SocketHub.Hub.SubscribeLogs | backend/src/websocket/socketHandler.js:44-58 | nothing changes when the socket already holds a watcher or `watchLogFile` returned null; otherwise a fresh live watcher with the initial cursor, owned by the socket and stored in its handle |
| SocketHub.Hub.StoreWatcher | backend/src/websocket/socketHandler.js:50 | the new watcher gets a fresh id, is live and is stored in the socket's handle; nothing else changes |
| SocketHub.Hub.UnsubscribeMetrics | backend/src/websocket/socketHandler.js:61-68 | the stored interval, if any, is cleared and the handle nulled; with no handle nothing changes |
| SocketHub.Hub.UnsubscribeLogs | backend/src/websocket/socketHandler.js:71-78 | the stored watcher, if any, is closed and the handle nulled; with no handle nothing changes |
| SocketHub.Hub.UnsubscribeAll | backend/src/websocket/socketHandler.js:81-93 | both handles end null and what they named is released; nothing else changes |
| SocketHub.Hub.Disconnect | backend/src/websocket/socketHandler.js:96-107 | the stored interval and watcher are released but the handles keep their values; no live watcher belongs to the socket afterwards |
| SocketHub.Hub.Tick | backend/src/websocket/socketHandler.js:29-37 | a tick appends one emission to its own socket's outbox, if still connected, and to no other |
| SocketHub.Hub.LogChange | backend/src/websocket/socketHandler.js:50-52 | a watcher event advances that watcher's cursor by one `TailStep` and appends its records only to the owning socket's outbox |
| Deployment.OrDefault | backend/src/services/deployment.js:55-58 | the `or` default: the input's value when present and truthy, else the fallback |
| Deployment.UnknownDeployment | backend/src/services/deployment.js:18-24 | version `unknown`, null deployedAt, commitHash and deployedBy, and the error |
| Deployment.GetCurrentDeployment | backend/src/services/deployment.js:13-39 | a missing file gives the unknown record with `Deployment file not found`, an unreadable one the exception's message, and otherwise the parsed content |
| Deployment.MergeDeployment | backend/src/services/deployment.js:54-60 | the keys are the input's plus the four defaulted ones; every input key keeps its value, even a falsy one; each default applies only to an absent key |
| Deployment.UpdateDeployment | backend/src/services/deployment.js:44-68 | a write failure is rethrown; otherwise the merged record |
| Deployment.GetDeploymentHistory | backend/src/services/deployment.js:73-87 | the parsed file, or `[]` when it is missing or unreadable |
| Deployment.AddToHistory | backend/src/services/deployment.js:92-119 | the new deployment first, then the first min(old, 19) old entries in order; a missing file counts as empty; read and write failures are rethrown; a decoded `null` fails with V8's null-property message and any other non-array with `history.unshift is not a function` |
| Deployment.CheckServicesHealth | backend/src/services/deployment.js:124-170 | backend always running; frontend running iff index.html exists; nginx running iff systemctl says `active` or, when systemctl throws, pgrep says `running`; otherwise inactive, stopped or unknown as the branches say |
| LogViewer.StatusColor | frontend/src/components/LogViewer/LogViewer.jsx:50-56 | success, info, warning, error and default each exactly on their band, so every status gets exactly one colour |
| LogViewer.AppendLog | frontend/src/components/LogViewer/LogViewer.jsx:19-22 | at most 50 entries, the new one last, the last min(50, n+1) of `prev + [newLog]`, nothing dropped while there is room |
| App.OnMetrics | frontend/src/App.jsx:28-35 | the sample becomes `metrics` and the last history entry; the history is the last min(60, n+1) of `prev + [data]`; a full window drops exactly its oldest entry |
| App.ReceiveKeepsLast | frontend/src/App.jsx:28-35 | after any run of samples from the start, the history is the last min(60, n) samples in order and `metrics` is the newest |
| App.ReceiveWindow | frontend/src/App.jsx:32-35 | windowing after each sample equals windowing once at the end |
| MetricsCards.UptimeClock | frontend/src/components/MetricsCards/MetricsCards.jsx:16-18 | hours below 24 and minutes below 60; days·86400 + hours·3600 + mins·60 ≤ s < that + 60; days > 0 iff s ≥ 86400; the hour case iff 3600 ≤ s < 86400 |
| MetricsCards.SplitHours | frontend/src/components/MetricsCards/MetricsCards.jsx:17-18 | floor division by 3600 is unique |
| MetricsCards.FormatUptime | frontend/src/components/MetricsCards/MetricsCards.jsx:15-23 | `{d}d {h}h` from a day on, `{h}h {m}m` from an hour, `{m}m` below, and `0m` for under a minute |
| DeploymentInfo.OrElse | frontend/src/components/DeploymentInfo/DeploymentInfo.jsx:102 | the `or` fallback: the value unless absent or empty, else the fallback; the version row shows `Unknown` this way, and the badge text at line 166 shows `unknown` |
| DeploymentInfo.CommitShown | frontend/src/components/DeploymentInfo/DeploymentInfo.jsx:110-113 | the row appears iff the hash is non-empty, showing its first min(7, length) characters |
| DeploymentInfo.FormatUptime | frontend/src/components/DeploymentInfo/DeploymentInfo.jsx:56-61 | `Unknown` iff the uptime is absent or exactly 0; otherwise `{h}h {m}m` with the `Math.floor` hours, unbounded, and minutes |
| DeploymentInfo.SubSecondUptime | frontend/src/components/DeploymentInfo/DeploymentInfo.jsx:57-60 | an uptime strictly between 0 and 1 second is truthy and shows `0h 0m` |
| DeploymentInfo.HoursMinutesBounds | frontend/src/components/DeploymentInfo/DeploymentInfo.jsx:58-59 | for a non-negative uptime, the hours and minutes are those of its whole seconds; minutes below 60, and h·3600 + m·60 ≤ floor(s) < that + 60 |
| DeploymentInfo.ServiceColor | frontend/src/components/DeploymentInfo/DeploymentInfo.jsx:152-156 | success iff running or active, warning iff unknown, error for everything else including an absent status |
| DeploymentInfo.AbsentStatusMismatch | frontend/src/components/DeploymentInfo/DeploymentInfo.jsx:152-166 | an absent status reads `unknown` but is coloured error, unlike a real `unknown`, which is coloured warning |
| MetricsChart.SecondsAgo | frontend/src/components/MetricsChart/MetricsChart.jsx:32 | zero exactly for the last index |
| MetricsChart.SecondsAgoStep | frontend/src/components/MetricsChart/MetricsChart.jsx:32 | successive labels differ by exactly two seconds |
| MetricsChart.Label | frontend/src/components/MetricsChart/MetricsChart.jsx:33 | `Now` for zero, `-{n}s` otherwise |
| MetricsChart.Labels | frontend/src/components/MetricsChart/MetricsChart.jsx:31-34 | one label per sample; the label is `Now` exactly at the last index |
| MetricsChart.LabelsDistinct | frontend/src/components/MetricsChart/MetricsChart.jsx:31-34 | no two labels are equal |
| MetricsChart.OrZero | frontend/src/components/MetricsChart/MetricsChart.jsx:36-37 | a present value is kept and an absent one becomes 0 |
| MetricsChart.CpuData | frontend/src/components/MetricsChart/MetricsChart.jsx:36 | one value per sample, in position, 0 when missing |
| MetricsChart.MemoryData | frontend/src/components/MetricsChart/MetricsChart.jsx:37 | one value per sample, in position, 0 when missing |
| Common.SliceStart | backend/src/services/logWatcher.js:23 | where `slice(start)` begins: negative starts count from the end, and both directions are clamped |
| Common.TakeFirst | backend/src/services/deployment.js:111 | `slice(0, n)` is the prefix of length min(n, length) |
| Common.KeepLast | frontend/src/App.jsx:34 | `slice(-k)` is the last min(k, n) elements, and the whole list when it is short enough |
| Common.AppendWindow | frontend/src/components/LogViewer/LogViewer.jsx:20-21 | appending and then keeping the last `cap` puts the new element last and drops exactly the oldest when full |
| Common.WindowOfAppend | frontend/src/App.jsx:33-34 | windowing before an append does not change the window after it |
| Common.Reverse | backend/src/services/logWatcher.js:29 | `reverse` puts element i at n - 1 - i |
| Common.Somes | backend/src/services/logWatcher.js:26 | `filter(Boolean)` drops the nulls and keeps every value |
| Common.SomesAllPresent | backend/src/services/logWatcher.js:59 | with no nulls, the filter keeps every value in position |
| Common.SomesAppend | backend/src/services/logWatcher.js:26 | the filter distributes over concatenation |
| Common.SomesLast | backend/src/services/logWatcher.js:26 | a present value at the end is kept at the end |
| Common.ReverseSomesAllPresent | backend/src/services/logWatcher.js:59-62 | with no nulls, filter then reverse keeps every value, reversed |
| Text.TrimStart | backend/src/services/logWatcher.js:20 | strips exactly the leading whitespace |
| Text.TrimEnd | backend/src/services/logWatcher.js:20 | strips exactly the trailing whitespace |
| Text.TrimIsInfix | backend/src/services/logWatcher.js:20 | `trim` keeps an infix, everything outside it is whitespace, and the result has no whitespace at either end |
| Text.TrimEndOfSuffix | backend/src/services/logWatcher.js:20 | trimming the end of a suffix keeps an infix of the whole string |
| Text.TrimUnchanged | backend/src/services/logWatcher.js:20 | a string without whitespace at either end is left alone |
| Text.TrimDropsTrailing | backend/src/services/logWatcher.js:20 | trailing whitespace after a trimmed string is removed |
| Text.Split | backend/src/services/logWatcher.js:20 | `split('\n')` gives at least one piece, and no piece contains a line feed |
| Text.JoinSplit | backend/src/services/logWatcher.js:20 | joining the pieces with line feeds gives back the string |
| Text.SplitJoin | backend/src/services/logWatcher.js:20 | splitting pieces joined by line feeds gives back the pieces |
| Text.SplitNoFeed | backend/src/services/logWatcher.js:20 | a string without line feeds is one piece |
| Text.SplitPrefix | backend/src/services/logWatcher.js:20 | a first line followed by a line feed splits off as the first piece |
| Text.NonEmpty | backend/src/services/logWatcher.js:20 | `filter(line => line)` keeps only non-empty pieces of its input |
| Text.NonEmptyKeepsAll | backend/src/services/logWatcher.js:20 | with no empty pieces nothing is dropped |
| Text.Lines | backend/src/services/logWatcher.js:20 | the lines are non-empty and contain no line feed |
| Text.LinesOfFile | backend/src/services/logWatcher.js:20 | a file of lines, each ended by a line feed, reads back as exactly those lines |
| Text.JoinBounds | backend/src/services/logWatcher.js:20 | the joined text starts with the first line's first character and ends with the last line's last character |
| Text.DigitChar | backend/src/services/logWatcher.js:144-145 | the digit character of a value below ten has that value |
| Text.NatToString | frontend/src/components/MetricsCards/MetricsCards.jsx:20-22 | the decimal rendering is a non-empty run of digits, without leading zeros, whose value is the number |

## Left out

- **`backend/src/services/metricsCollector.js`.** It is not part of this model: it wraps a system-information library and rounds floating-point numbers. A metrics sample is an input (`Metrics.Sample`), and a failed fetch is `None`.
- **Real timers, `fs.watch` and read streams.**
  - An interval or watcher is an id in a set of live ids, and clearing or closing it removes the id.
  - The watcher callback runs one event at a time, and its read stream finishes within the event. In the source, `lastSize` is set before the stream's `end` fires, so the reads of overlapping events can interleave. That concurrency is not modelled.
- **The socket.io transport.**
  - `emit` is an append to the socket's outbox.
  - An emit on a disconnected socket is dropped.
  - The promise that sends the preview sample on connection is taken to finish at once.
  - `broadcastToAll`, `broadcastDeploymentUpdate` and the `error` and engine handlers, which only log, are not modelled.
- **HTTP and configuration.** The Express server, routes and configuration are not part of this model. The file paths and the metrics interval configured there do not affect the logic modelled.
- **Frontend plumbing.** The frontend services, React hooks and rendering, and `formatDate` (locale date formatting) are not part of this model.
- **The clock.** The current time in `parseErrorLog`'s fallback and in `updateDeployment` is a parameter.
- **Files, JSON and commands.** JSON parsing and serialisation, file existence, reads and writes, `mkdirSync` and `execSync` are inputs.
  - A JSON value is the `Deployment.Json` datatype, and an object is a map, so key order is not modelled.
  - A failed `mkdirSync` is not told apart from a failed write.
  - JSON numbers are `real`, and `NaN` does not occur.
- **Sizes.** File sizes and offsets are counted in characters, one per byte: multi-byte UTF-8 is not modelled. `statSync` throwing inside the watcher callback is not modelled either.
- **Numbers in access lines.** `parseInt` of the status and size digits is their exact decimal value. Precision loss beyond 2^53 is not modelled.
- **Dictionary key order.** `Object.entries` lists integer-like keys first, in ascending numeric order, and the other keys in insertion order. Both dictionaries of `getLogStats` are modelled with plain insertion order. This matters for the status codes, which are all integer-like. It also matters for the paths: `\S+` accepts a path such as `123`, from a request line `GET 123 HTTP/1.1`.
- Counting.Entries: the entries follow insertion order. For a path dictionary with integer-like keys, the source lists those keys first. Among paths with equal counts, that decides which come first in `topPaths` and which of them fall beyond the tenth place. `Counting.SortByCountStable` states the tie order relative to `Counting.Entries`.
- Counting.Increment: the counts are a map, and every path is counted as itself. The source counts in a plain object `{}`, so a path that names an `Object.prototype` member is counted differently:
  - for `constructor`, `toString`, `valueOf` and the like, the lookup finds the inherited function, so the "count" becomes a string, and the comparator then treats it as a tie;
  - assigning to `__proto__` is ignored, so that path never reaches `topPaths`.
  `\S+` accepts such paths, and nginx logs the raw request line even for a request it rejects. The counts of status codes, which are numbers, are not affected.
- LogStats.Paths: the paths are counted as plain keys; the `Object.prototype` names described for `Counting.Increment` are not told apart.
- **Line terminators.** Error-log messages stop at the first line terminator, as the regex `.` does. Lines never contain `\n`, because they come from `split('\n')`.
- MetricsCards.FormatUptime: the uptime is a `nat`, the whole seconds of the fractional metrics value. For `s ≥ 0` the floors of `s / 86400`, `(s % 86400) / 3600` and `(s % 3600) / 60` are the same for `s` and for `floor(s)`, and this formatter has no truthiness test, so every displayed value is exact. A negative uptime is not modelled. `DeploymentInfo.FormatUptime` takes the real number itself, because its `!seconds` test tells an uptime under a second, which is truthy, apart from 0 (`DeploymentInfo.SubSecondUptime`).
- SocketHub.Hub.LogChange: it states that the other watchers' closures are unchanged. It does not restate the whole hub invariant about them beyond `Valid()`.
- LogReader.ReadAccessLogs: the function itself states the errors, the total and the bound on the logs. Which records come back, in which order, is stated by `LogReader.ReadAccessLogsWindow` beside it, to keep each proof small.
