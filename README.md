# db-sync monitoring scripts in Dafny

This project models the four scripts that watch a running cardano-db-sync instance and collect its figures.

- **`db-sync-process-monitor.py`** samples the db-sync process once per tick. It stores memory, cpu and version rows keyed by the chain's latest slot in an SQLite file. In its foreground loop it lets the user pick recorded versions and plots them.
- **`simple-db-sync-monitor.py`** is a lighter monitor. It keys its rows by timestamp and plots the rows of a recent time window.
- **`regenerate-plots.py`** reads a slot-keyed SQLite file after the fact. It lets the user pick versions and writes one comparison page for them.
- **`create-db-sync-stats.py`** queries the db-sync Postgres database. It produces a per-epoch figures table (sync time, transactions, rewards, stakes) and a text report of the database and table sizes.

The model turns every library call into a value.

- A psutil call becomes the value it returns or the exception it raises (`Platform.Call`).
- A Postgres or SQLite query becomes a function of the table contents.
- The wall clock, the Postgres lookups and the interactive input become parameters.

What the scripts do with those values is modelled in one module per script:

| file | module | what it holds |
|---|---|---|
| `platform.dfy` | `Platform` | what psutil reports about a process |
| `locator.dfy` | `ProcessLocator` | `get_process`, shared by both monitors |
| `metric_store.dfy` | `MetricStore` | the slot-keyed store as a class with three append-only tables, plus its read queries |
| `slot_monitor.dfy` | `SlotMonitor` | `db-sync-process-monitor.py` |
| `simple_monitor.dfy` | `SimpleMonitor` | `simple-db-sync-monitor.py`, with its own store class |
| `regenerate.dfy` | `Regenerate` | `regenerate-plots.py` |
| `db_stats.dfy` | `DbStats` | `create-db-sync-stats.py` |

The modules `Wrappers`, `Text`, `PyInt` and `Seqs` hold the Python semantics the scripts rely on:

- `Option` and `Result`;
- `in` on strings, `join`, `split`, `strip`, `replace`, the `:40s` format and `os.path.join`;
- `int()`, `str()` and list indexing with negative indices;
- `DISTINCT`.

## Model

The stateful parts are classes whose methods are proved against the functions beside them:

- the two SQLite stores;
- the two monitors' `log_metrics` loops and their `running` flag;
- the caller's dict that `write_size_report` pops from.

Constructors and methods that state their new state with `old` are listed as well.

| member | source | states |
|---|---|---|
| ProcessLocator.FirstMatch | scripts/db-sync-process-monitor.py:50-54 | the position returned holds a process whose space-joined command line contains "cardano-db-sync"; no earlier process matches; None exactly when no process matches |
| ProcessLocator.GetProcess | scripts/db-sync-process-monitor.py:50-54 | the loop with early return yields the first matching process, or None when there is none |
| ProcessLocator.MatchesIffOneArgument | scripts/simple-db-sync-monitor.py:34-38 | since the name has no space, a process matches exactly when one single argument contains the name; an unreadable command line counts as empty |
| Platform.Mb | scripts/db-sync-process-monitor.py:61-66 | `/ 1024**2`: the MiB figure times 1048576 is the byte count, and a non-negative count gives a figure between 0 and itself |
| MetricStore.Store.Open | scripts/db-sync-process-monitor.py:29 | the store file as found: a table that does not exist holds no rows |
| MetricStore.Store.InitDb | scripts/db-sync-process-monitor.py:35-48 | afterwards all three tables exist, and every row already there is kept |
| MetricStore.Store.InsertMemory | scripts/db-sync-process-monitor.py:154-160 | appends exactly the one memory row; the other tables are unchanged |
| MetricStore.Store.InsertCpu | scripts/db-sync-process-monitor.py:161-168 | appends exactly the one cpu row; the other tables are unchanged |
| MetricStore.Store.InsertVersion | scripts/db-sync-process-monitor.py:169-173 | appends exactly the one version row; the other tables are unchanged |
| MetricStore.NewestFirst | scripts/db-sync-process-monitor.py:220-224 | one version per row, holding exactly the versions recorded |
| MetricStore.DistinctVersions | scripts/regenerate-plots.py:20-27 | each recorded version exactly once; empty exactly when nothing is recorded |
| MetricStore.Placeholders | scripts/regenerate-plots.py:32 | one `?` per requested version, separated by commas; empty for no version |
| MetricStore.WithVersionIn | scripts/regenerate-plots.py:33-37 | every row whose version is requested is kept as often as it occurs; every other row is dropped |
| MetricStore.WithVersionInOne | scripts/regenerate-plots.py:33-37 | one row is kept exactly when its version is requested |
| MetricStore.WithVersionInAppend | scripts/regenerate-plots.py:33-37 | the filter keeps table order: filtering a concatenation concatenates the filtered parts |
| MetricStore.InsertBySlot | scripts/regenerate-plots.py:37 | inserting into a slot-ordered sequence keeps it slot-ordered and adds exactly that row |
| MetricStore.SortBySlot | scripts/regenerate-plots.py:37 | `ORDER BY slot_no` is a permutation of its input, non-decreasing in slot |
| MetricStore.LoadSeries | scripts/regenerate-plots.py:33-47 | one query's result is ordered by slot and holds exactly the rows with a requested version |
| MetricStore.PerVersion | scripts/db-sync-process-monitor.py:196-204 | one series per chosen version, in selection order, duplicates repeated |
| MetricStore.FilterKeepsSorted | scripts/regenerate-plots.py:62-63 | keeping some rows of a slot-ordered table keeps it slot-ordered |
| MetricStore.PerVersionSeries | scripts/regenerate-plots.py:62-76 | each per-version series of a loaded table is slot-ordered and holds exactly that version's rows |
| MetricStore.Assemble | scripts/db-sync-process-monitor.py:185-204 | the plotted data: per chosen version, in order, a slot-ordered memory series and cpu series holding exactly that version's rows |
| SlotMonitor.VersionTag | scripts/db-sync-process-monitor.py:135-136 | the tag is "cardano-db-sync ", the version, a space, then the environment |
| SlotMonitor.PgDbName | scripts/db-sync-process-monitor.py:266 | the given name unless it is absent or empty; otherwise `<env>_<ver>_metrics`, with env, '_', the version and "_metrics" each at its place; never empty |
| SlotMonitor.GetMemoryDetails | scripts/db-sync-process-monitor.py:56-69 | a dict exactly when both memory calls return; sizes are in MiB, and an attribute the platform lacks reads as 0 |
| SlotMonitor.GetCpuDetails | scripts/db-sync-process-monitor.py:71-88 | a dict exactly when all three calls return; children times and iowait default to 0.0; ctx_switches is voluntary+involuntary; interrupts is None |
| SlotMonitor.MemoryRowOf | scripts/db-sync-process-monitor.py:154-160 | the memory row INSERTed carries the tick's slot, every figure of the memory dict unchanged, and the version tag |
| SlotMonitor.CpuRowOf | scripts/db-sync-process-monitor.py:161-168 | the cpu row INSERTed carries the tick's slot, every figure of the cpu dict unchanged (ctx_switches included), and the version tag |
| SlotMonitor.TickRows | scripts/db-sync-process-monitor.py:143-177 | no slot: nothing is written and the loop goes on. With a slot: exactly one version row; a memory or cpu row exactly when the process was found and that extraction succeeded; every row carries the slot and the tag; the memory row is `MemoryRowOf` the slot, the memory dict and the tag, and the cpu row likewise, so ctx_switches is stored as voluntary+involuntary and interrupts as NULL; the loop dies after writing when the sync percent is None |
| SlotMonitor.Run | scripts/db-sync-process-monitor.py:142-177 | over a schedule: one version row per tick that found a slot, at most one memory and one cpu row per version row, every row tagged; the run is cut short only by a dead loop |
| SlotMonitor.RunExtend | scripts/db-sync-process-monitor.py:142-177 | while the loop lives, the next tick appends exactly its own rows |
| SlotMonitor.RunAfterEnd | scripts/db-sync-process-monitor.py:142-177 | once the loop has died, later ticks change nothing |
| SlotMonitor.RunComplete | scripts/db-sync-process-monitor.py:142-177 | a run that used up its schedule or died is the run of the whole schedule |
| SlotMonitor.MissingSyncPercentEndsRun | scripts/db-sync-process-monitor.py:152-175 | a tick with a slot but no sync percent is the last tick the loop runs |
| SlotMonitor.SlotlessTicksWriteNothing | scripts/db-sync-process-monitor.py:143-146 | ticks without a slot write nothing and never end the loop |
| SlotMonitor.Monitor.constructor | scripts/db-sync-process-monitor.py:19-33 | store file `dbsync_<env>_stats_sqlite.db`, output folder "plots", running set, all tables created and existing rows kept |
| SlotMonitor.Monitor.Tick | scripts/db-sync-process-monitor.py:143-177 | appends to each table exactly what `TickRows` says and nothing else |
| SlotMonitor.Monitor.LogMetrics | scripts/db-sync-process-monitor.py:138-177 | with the flag set, the store gains exactly the rows of `Run` over the schedule; with it cleared, nothing is written |
| SlotMonitor.Monitor.Stop | scripts/db-sync-process-monitor.py:237-238 | clears the flag the logging loop polls |
| SlotMonitor.TokenChoice | scripts/db-sync-process-monitor.py:234 | a token that picks something picks one of the listed versions |
| SlotMonitor.TokenChoiceIndex | scripts/db-sync-process-monitor.py:234 | a token picks exactly when it reads as n with n-1 in [-len, len); n >= 1 picks the n-th version and n <= 0 counts back from the end |
| SlotMonitor.Picks | scripts/db-sync-process-monitor.py:234 | the pick of each token, in token order |
| SlotMonitor.ChooseTokens | scripts/db-sync-process-monitor.py:234 | succeeds exactly when every token picks, and then gives the picks in token order with repeats kept; otherwise it raises ValueError or IndexError for the first bad token |
| SlotMonitor.Choose | scripts/db-sync-process-monitor.py:234 | `[vers[int(i) - 1] for i in sel.split(",")]` succeeds exactly when every comma-separated token picks, and then yields one listed version per token, each the one its token picks, in order |
| SlotMonitor.ChooseIsAllSome | scripts/db-sync-process-monitor.py:234 | the comprehension succeeds exactly when every token picks, and then yields those picks |
| SlotMonitor.ZeroPicksLast | scripts/db-sync-process-monitor.py:234 | "0" picks the last listed version |
| SlotMonitor.ShownTokenPicks | scripts/db-sync-process-monitor.py:231-234 | typing the number shown next to a version picks that version |
| SlotMonitor.ChooseShown | scripts/db-sync-process-monitor.py:231-234 | a selection of shown numbers picks exactly those versions, in order |
| SlotMonitor.PlotPath | scripts/db-sync-process-monitor.py:179-181 | the page goes to `plots/comparison_<dbname>_<ts>.html` |
| SlotMonitor.RunStep | scripts/db-sync-process-monitor.py:214-236 | waits exactly when no version is recorded; raises exactly when the selection fails; otherwise the plotted versions are exactly what `Choose` makes of the selection over the recorded versions, the data is `Assemble` of the stored rows for them, and the page is saved under `PlotPath` |
| SimpleMonitor.Store.Open | scripts/simple-db-sync-monitor.py:17 | the store file as found: a table that does not exist holds no rows |
| SimpleMonitor.Store.InitDb | scripts/simple-db-sync-monitor.py:20-32 | both tables exist afterwards, and existing rows are kept |
| SimpleMonitor.Store.InsertMemory | scripts/simple-db-sync-monitor.py:96-105 | appends exactly the one memory row |
| SimpleMonitor.Store.InsertCpu | scripts/simple-db-sync-monitor.py:107-117 | appends exactly the one cpu row |
| SimpleMonitor.Fail | scripts/simple-db-sync-monitor.py:52 | NoSuchProcess, AccessDenied and AttributeError give None; any other exception escapes |
| SimpleMonitor.GetMemoryDetails | scripts/simple-db-sync-monitor.py:40-53 | the first failing call decides the outcome. A missing `shared` loses the whole sample. Missing uss, pss or swap are None rather than 0; present ones, and rss, vms and shared, are the byte counts in MiB |
| SimpleMonitor.EffectiveCpuCount | scripts/simple-db-sync-monitor.py:59 | an unknown or zero count reads as 1, so the count is never 0 |
| SimpleMonitor.GetCpuDetails | scripts/simple-db-sync-monitor.py:55-78 | the calls run in order and the first failing one decides the outcome. The normalised percent times the count is the percent. Children times default to 0.0 and iowait to None. ctx_switches is summed; interrupts is None |
| SimpleMonitor.MemoryRowOf | scripts/simple-db-sync-monitor.py:96-105 | the memory row INSERTed carries the tick's timestamp, every figure of the memory dict (uss, pss and swap as their Options) and the process tag |
| SimpleMonitor.CpuRowOf | scripts/simple-db-sync-monitor.py:107-117 | the cpu row INSERTed carries the tick's timestamp, every figure of the cpu dict (iowait as its Option) and the process tag |
| SimpleMonitor.TickRows | scripts/simple-db-sync-monitor.py:85-121 | no process: nothing is written and the loop goes on. An escaping exception ends the loop with nothing written. Otherwise each row is written exactly when its extraction gave a sample, and it is `MemoryRowOf` or `CpuRowOf` of the tick's timestamp and that sample |
| SimpleMonitor.AbsentFiguresStoredAsNull | scripts/simple-db-sync-monitor.py:47-49 | a stored memory row holds NULL for uss, pss or swap exactly when `memory_full_info` lacks that attribute |
| SimpleMonitor.Run | scripts/simple-db-sync-monitor.py:85-121 | at most one memory and one cpu row per tick that found the process, every row tagged; the run is cut short only by an escaping exception |
| SimpleMonitor.RunExtend | scripts/simple-db-sync-monitor.py:85-121 | while the loop lives, the next tick appends exactly its own rows |
| SimpleMonitor.RunAfterEnd | scripts/simple-db-sync-monitor.py:85-121 | once the loop has died, later ticks change nothing |
| SimpleMonitor.RunComplete | scripts/simple-db-sync-monitor.py:85-121 | a run that used up its schedule or died is the run of the whole schedule |
| SimpleMonitor.AbsentProcessWritesNothing | scripts/simple-db-sync-monitor.py:87-89 | ticks that never find the process write nothing and never end the loop |
| SimpleMonitor.EscapeEndsRun | scripts/simple-db-sync-monitor.py:76-78 | an exception escaping a tick makes it the last tick run |
| SimpleMonitor.Monitor.constructor | scripts/simple-db-sync-monitor.py:14-18 | fixed store file, running set, tables created and existing rows kept |
| SimpleMonitor.Monitor.Tick | scripts/simple-db-sync-monitor.py:86-121 | appends to each table exactly what `TickRows` says and nothing else |
| SimpleMonitor.Monitor.LogMetrics | scripts/simple-db-sync-monitor.py:80-121 | with the flag set, the store gains exactly the rows of `Run`; with it cleared, nothing is written |
| SimpleMonitor.Monitor.Stop | scripts/simple-db-sync-monitor.py:189-191 | clears the flag the logging loop polls |
| SimpleMonitor.PlotMetrics | scripts/simple-db-sync-monitor.py:142-177 | nothing is drawn exactly when either window is empty. USS and I/O wait are drawn exactly when some row has a value. The hour interval is at least 1 and is `hours // 6` from 6 hours up |
| SimpleMonitor.HourInterval | scripts/simple-db-sync-monitor.py:174 | `max(1, hours // 6)`: at least 1, 1 below 12 hours, and from 6 hours on the largest n with 6n <= hours |
| Regenerate.LoadMetrics | scripts/regenerate-plots.py:30-48 | both tables queried with the same list; each result is slot-ordered and holds exactly the rows with a requested version |
| Regenerate.Index | scripts/regenerate-plots.py:126 | `int(x.strip()) - 1`: defined exactly when `int()` accepts the token, and then one less than its value |
| Regenerate.IndexShownPadded | scripts/regenerate-plots.py:122-126 | a shown number typed with surrounding blanks reads as the index of the version shown next to it |
| Regenerate.Indices | scripts/regenerate-plots.py:126 | one index per token, each defined exactly when `int()` accepts its token and one less than its value |
| Regenerate.Picked | scripts/regenerate-plots.py:127 | every index that picks something picks a listed version |
| Regenerate.Select | scripts/regenerate-plots.py:124-130 | an accepted selection has one listed version per token |
| Regenerate.TokensAgree | scripts/regenerate-plots.py:126-127 | token by token, parsing then indexing here picks what the live monitor's `vers[int(t) - 1]` picks |
| Regenerate.TwoPassesAgree | scripts/regenerate-plots.py:125-130 | parsing every index and then indexing with each one succeeds exactly when every token picks, with the same result |
| Regenerate.SelectAgrees | scripts/regenerate-plots.py:124-130 | a selection is accepted here exactly when the live monitor's comprehension raises nothing, and both choose the same versions |
| Regenerate.NonPositivePicksFromEnd | scripts/regenerate-plots.py:126-127 | "0" is accepted and picks the last version |
| Regenerate.SafeName | scripts/regenerate-plots.py:89 | holds no space and no '/'; each character comes from the name or is '-'; the empty name stays empty |
| Regenerate.SafeNameChar | scripts/regenerate-plots.py:89 | one character: a space is dropped, '/' becomes '-', anything else is kept |
| Regenerate.SafeNameAppend | scripts/regenerate-plots.py:89 | the name is cleaned character by character, in order: cleaning a concatenation concatenates the cleaned parts |
| Regenerate.SafeNames | scripts/regenerate-plots.py:89 | one cleaned name per version, in order |
| Regenerate.SafeNameIdempotent | scripts/regenerate-plots.py:89 | making a name safe twice is making it safe once |
| Regenerate.SafeNameKeepsPlain | scripts/regenerate-plots.py:89 | a name without spaces or '/' is left as it is |
| Regenerate.SafeJoin | scripts/regenerate-plots.py:89 | the cleaned names joined with '_', in version order; the fragment holds no space and no '/' |
| Regenerate.SafeJoinSplits | scripts/regenerate-plots.py:89 | when no version holds '_', splitting the fragment at '_' gives back each version's cleaned name |
| Regenerate.ComparisonPath | scripts/regenerate-plots.py:90 | `comparison_<dbname>_<safe>.html` inside the output folder, with `os.path.join`'s three cases |
| Regenerate.Traces | scripts/regenerate-plots.py:61-77 | per chosen version, in order, its memory trace and cpu trace hold exactly the loaded rows of that version, in load order |
| Regenerate.Main | scripts/regenerate-plots.py:113-133 | stops before prompting exactly when no version is recorded. Stops without loading exactly when the selection is invalid. Otherwise the versions loaded and drawn are exactly what `Select` makes of the selection over the recorded versions, and the page is saved under `ComparisonPath` |
| DbStats.Lookup | scripts/create-db-sync-stats.py:186 | a dict has a value for a key exactly when it holds an entry with that key |
| DbStats.Put | scripts/create-db-sync-stats.py:47 | the key then finds the new value; every other key finds what it found before; an existing key keeps its place |
| DbStats.PutNew | scripts/create-db-sync-stats.py:47 | a key not yet present goes to the end |
| DbStats.LastFor | scripts/create-db-sync-stats.py:47 | a key given in the rows finds the value of its last row |
| DbStats.PutAll | scripts/create-db-sync-stats.py:47 | `{**d, **rows}`: a key given in the rows finds its last row's value, any other key what it found in d; d's keys keep their places; unique keys stay unique |
| DbStats.PutAllFresh | scripts/create-db-sync-stats.py:47 | entries with new keys are appended in order |
| DbStats.Remove | scripts/create-db-sync-stats.py:186 | the key is gone; every other key finds what it found before; unique keys stay unique; nothing changes without the key |
| DbStats.RemoveFirst | scripts/create-db-sync-stats.py:186 | popping the first key leaves the remaining entries in order |
| DbStats.SizeTable.Pop | scripts/create-db-sync-stats.py:186 | returns the key's value and removes it from the caller's dict in place; a missing key gives None and changes nothing |
| DbStats.QualifiedName | scripts/create-db-sync-stats.py:35 | a table name always holds a '.' |
| DbStats.Pairs | scripts/create-db-sync-stats.py:33-44 | one `(schema.relation, size)` pair per query row, in query order |
| DbStats.SizeDict | scripts/create-db-sync-stats.py:28-47 | keys are unique and the first entry is the total under "\_\_database\_\_"; every table name finds the size of its last query row |
| DbStats.TablesNeverTotal | scripts/create-db-sync-stats.py:35-47 | no table name can be "\_\_database\_\_" |
| DbStats.SizeDictOfDistinct | scripts/create-db-sync-stats.py:28-47 | with distinct table names, the dict is the total followed by every table in the query's descending-size order |
| DbStats.TableLine | scripts/create-db-sync-stats.py:189 | two spaces, the name left-justified and padded with spaces to 40 characters (never truncated), the arrow, the size |
| DbStats.ArrowsAligned | scripts/create-db-sync-stats.py:189 | names up to 40 characters put their arrows in the same column |
| DbStats.LinesJoin | scripts/create-db-sync-stats.py:185-189 | newline-terminated lines are the lines joined with newlines plus a final newline |
| DbStats.ReportText | scripts/create-db-sync-stats.py:185-189 | the text written is the report's lines, each followed by a newline |
| DbStats.ReportLines | scripts/create-db-sync-stats.py:185-189 | "Database: …", "Total size: …", a blank line, "Table sizes:", then one table line per remaining entry in dict order |
| DbStats.ReportSplits | scripts/create-db-sync-stats.py:185-189 | reading the report back line by line gives exactly its lines, provided no field holds a newline |
| DbStats.ReportHeader | scripts/create-db-sync-stats.py:185-187 | with no table left, the report is exactly the four header lines |
| DbStats.ReportStep | scripts/create-db-sync-stats.py:188-189 | each further entry appends its own table line and a newline |
| DbStats.OutputPath | scripts/create-db-sync-stats.py:171-183 | `<dbname>_epoch_stats_<ts>.html` and `<dbname>_db_size_report_<ts>.txt` land inside the output folder, following `os.path.join`: a "/" is added only when the folder lacks one, and a name starting with "/" replaces the folder |
| DbStats.WriteSizeReport | scripts/create-db-sync-stats.py:176-191 | raises exactly when the total is missing, after writing the first line and leaving the dict unchanged. Otherwise it pops the total from the caller's dict and writes the report of the remaining entries |
| DbStats.MaxSync | scripts/create-db-sync-stats.py:59 | present exactly when the epoch has a row; bounds every row's sync time and equals one of them |
| DbStats.Aggregate | scripts/create-db-sync-stats.py:57-64 | one entry per epoch present; sync time is the maximum over the epoch's rows; each other column is the sum over them |
| DbStats.Count | scripts/create-db-sync-stats.py:70 | zero exactly when the epoch has no row |
| DbStats.KnownEpochs | scripts/create-db-sync-stats.py:100-104 | exactly the epochs of transactions whose block has one |
| DbStats.TxSize | scripts/create-db-sync-stats.py:97 | zero for an epoch without transactions |
| DbStats.GroupEpochs | scripts/create-db-sync-stats.py:72-106 | a grouped subquery has at most one group per epoch |
| DbStats.GroupRow | scripts/create-db-sync-stats.py:65-106 | a grouped row is about its own epoch and has sync time 0 |
| DbStats.Rows | scripts/create-db-sync-stats.py:65-106 | one grouped row per epoch, in order |
| DbStats.SyncSource | scripts/create-db-sync-stats.py:110-118 | one derived row per `epoch_sync_time` row, carrying its seconds and zero counts |
| DbStats.SumDedup | scripts/create-db-sync-stats.py:77 | dropping repeated rows leaves a sum unchanged when the repeats contribute 0 to it |
| DbStats.AggregateSame | scripts/create-db-sync-stats.py:57-64 | rows with the same sums and the same maximum per epoch give the same merged table |
| DbStats.OnlySyncRowsRepeat | scripts/create-db-sync-stats.py:64-119 | the only rows UNION can find twice contribute 0 to every summed column |
| DbStats.UnionKeepsFigures | scripts/create-db-sync-stats.py:56-121 | UNION's removal of repeated rows changes no figure: the merge equals the merge of all four subqueries' rows |
| DbStats.DerivedSum | scripts/create-db-sync-stats.py:64-119 | a summed column of an epoch is the sum of what the three grouped subqueries give it |
| DbStats.GroupFiguresOwn | scripts/create-db-sync-stats.py:65-106 | only the subquery a column belongs to adds anything to it |
| DbStats.DerivedEpochs | scripts/create-db-sync-stats.py:64-119 | the derived table lists an epoch exactly when one of the four tables mentions it |
| DbStats.EpochListed | scripts/create-db-sync-stats.py:56-121 | an epoch is in the result exactly when rewards, stakes, transactions with a block epoch or sync times mention it |
| DbStats.DerivedOwn | scripts/create-db-sync-stats.py:56-121 | summed over the derived table, each column gives an epoch its own count or size |
| DbStats.EpochFigures | scripts/create-db-sync-stats.py:56-121 | a listed epoch's reward, stake and transaction counts are its own row counts in each table, and its size sum is its transactions' sizes summed |
| DbStats.SyncTimesBounded | scripts/create-db-sync-stats.py:59 | every recorded sync time's epoch is listed, with a sync time at least that large |
| DbStats.Generate | scripts/create-db-sync-stats.py:193-218 | the merged epoch table, the page under `--outdir`, and the report always under "stats"; the report is complete, listing every table in query order when names are distinct |
| Text.Split | scripts/regenerate-plots.py:126 | `split(',')` never yields an empty list, and no piece holds the separator |
| Text.Join | scripts/regenerate-plots.py:89 | `sep.join(parts)`: empty for no part; otherwise as long as the parts plus one separator between each two, and starting with the first part |
| Text.StripLeft | scripts/regenerate-plots.py:126 | removes exactly the leading whitespace |
| Text.StripRight | scripts/regenerate-plots.py:126 | removes exactly the trailing whitespace |
| Text.StripTrims | scripts/regenerate-plots.py:126 | `strip()` gives a slice of the text with only whitespace before and after it, that neither starts nor ends with whitespace |
| Text.Replace | scripts/regenerate-plots.py:89 | every character of the result is an unreplaced character of the input or comes from the replacement; the empty text stays empty |
| Text.ReplaceChar | scripts/regenerate-plots.py:89 | one character: the character replaced is turned into the replacement, any other is kept |
| Text.ReplaceAppend | scripts/regenerate-plots.py:89 | `replace` works character by character, in order: replacing in a concatenation concatenates the replaced parts |
| Text.PadRight | scripts/create-db-sync-stats.py:189 | `:40s` keeps the text, pads it with spaces to the width and never truncates |
| Text.PathJoin | scripts/regenerate-plots.py:90 | `os.path.join(dir, name)`: a name starting with '/' replaces the folder; otherwise the result starts with the folder and ends with the name, with one '/' between them exactly when the folder does not already end in one |
| Text.ContainsJoin | scripts/db-sync-process-monitor.py:52 | a needle without the separator occurs in a joined text exactly when it occurs in one part |
| Text.JoinSplit | scripts/regenerate-plots.py:126 | joining the pieces of a split gives the text back |
| Text.SplitJoin | scripts/regenerate-plots.py:126 | splitting pieces free of the separator after joining them gives the pieces back |
| Text.JoinExcludes | scripts/regenerate-plots.py:89 | a character in neither the separator nor any part is not in the joined text |
| Text.StripStrip | scripts/regenerate-plots.py:126 | `strip()` is idempotent |
| Text.ReplaceAbsent | scripts/regenerate-plots.py:89 | replacing an absent character changes nothing |
| PyInt.ParseInt | scripts/regenerate-plots.py:126 | `int()` succeeds only on a token that is not blank |
| PyInt.ParseStripped | scripts/regenerate-plots.py:126 | `int()` ignores surrounding whitespace: a token reads as what its stripped form reads as |
| PyInt.ParseShowPadded | scripts/regenerate-plots.py:122-126 | `int(' ' + str(n) + ' ') == n`: a printed number read back with any surrounding whitespace is itself |
| PyInt.ParseRejects | scripts/regenerate-plots.py:126 | ValueError for a token whose stripped form holds a character that is not a digit or '_', other than a leading sign |
| PyInt.ShowNat | scripts/regenerate-plots.py:122-123 | digits only, never empty, and starting with '0' only for 0 |
| PyInt.Show | scripts/regenerate-plots.py:122-123 | `str(n)`: never empty, a leading '-' exactly for negatives, and digits everywhere else |
| PyInt.ParseShow | scripts/regenerate-plots.py:122-126 | `int(str(n)) == n` for every integer, so the numbers printed next to the versions read back as themselves |
| PyInt.PyIndex | scripts/regenerate-plots.py:127 | `xs[i]` succeeds exactly for i in [-len, len) |
| Seqs.Dedup | scripts/regenerate-plots.py:24 | `DISTINCT`: each element once, with exactly the original elements |
| Seqs.AllSome | scripts/regenerate-plots.py:125-130 | the whole list when every entry is present, None as soon as one is missing |

## Left out

- All psutil calls are left out; their results are inputs. This covers `process_iter`, `memory_info`, `memory_full_info`, `cpu_times`, `cpu_percent`, `num_ctx_switches`, `oneshot` and `cpu_count`, and the `cpu_percent` priming before each logging loop.
- Floating point is left out. Sizes, times and percentages are Dafny `real`s, and `/ 1024**2` is exact division.
- The Postgres lookups `get_slot_no` and `get_sync_percent` are left out, and so are the connections of `fetch_*` and the sync-percent arithmetic. Each tick's answers are inputs.
- The two size queries of `fetch_db_and_table_sizes` are left out. Their results are inputs: the total, then one row per table in the query's order.
- The block/tx join of the epoch query is given as one row per transaction, carrying its block's epoch or none.
- The reward and epoch_stake epochs are taken as never NULL.
- `COUNT(x)` is modelled as a count of rows.
- SQLite's time window in `plot_metrics` is left out. The rows inside the window are inputs.
- The order of `SELECT DISTINCT version ... ORDER BY timestamp DESC` is left out, because SQL does not fix it. Only membership and "each version once" are stated.
- The order of ties under `ORDER BY slot_no` is left out. The result is stated as a slot-ordered permutation.
- The order of the outer `GROUP BY` groups is left out. The per-epoch result is a map.
- All rendering is left out: plotly and matplotlib figures, titles, `show`, `write_html` and `savefig`. What is drawn is stated as data: the series handed to the plot and the file name.
- Threads, daemon flags, `time.sleep`, `input()` and printing are left out.
  - A logging loop is a function over a finite schedule of per-tick answers.
  - The foreground loops are one pass over the selection string.
  - The only thing kept from the status line is that it raises.
- The wall clock is left out. Timestamps are opaque inputs.
- argparse, `os.makedirs` and `ensure_dir` are left out.
- DbStats.Generate states the report text only when table names are distinct, which is what Postgres returns for distinct relations. With repeated names, `SizeDict` says which entries the dict holds.
- PyInt.ParseInt accepts only the ASCII digits 0-9. Python's `int()` also accepts the decimal digits of other scripts (Arabic-Indic, Devanagari, fullwidth and so on). The model has no Unicode character database, so such tokens are rejected here.
- DbStats.SyncTimesBounded gives only a lower bound for the merged sync time. Its exact value, the largest of the epoch's rows including the 0 of each grouped row, is stated by DbStats.Aggregate.

In a few places the code does not do what its own prompts, type hints or options suggest. The model follows the code:

- **Selecting "0" or a negative number.** Both prompts ask for 1-based indices: "choose (e.g. 1,2)" at `db-sync-process-monitor.py:233` and "comma-sep indices, e.g. 1,2" at `regenerate-plots.py:124`. Yet such a token is not rejected. Through Python's negative indexing it counts back from the end of the list (`Regenerate.NonPositivePicksFromEnd`, `SlotMonitor.ZeroPicksLast`).
- **A missing sync percent in the slot-keyed monitor.** `get_sync_percent` is typed `float | None` (`db-sync-process-monitor.py:105`). The status line at lines 175-176 guards the cpu and memory figures with 'N/A' but formats the sync percent with `:.2f` unguarded. When a tick finds a slot but no sync percent, formatting raises after the tick's rows are written, and this ends the logging thread (`SlotMonitor.MissingSyncPercentEndsRun`).
- **A bad selection in the live monitor.** `regenerate-plots.py:125-130` catches a bad selection and reports "Invalid selection". The live monitor's `run` catches only KeyboardInterrupt (`db-sync-process-monitor.py:237`), so the same selection raises out of `run` (`SlotMonitor.RunStep`).
- **A missing `shared` in the simple monitor.** `get_memory_details` is typed to return `float | None` figures, and uss, pss and swap are guarded with `hasattr` (`simple-db-sync-monitor.py:40-50`). `shared` is read without a guard. A platform without it raises AttributeError, so the whole memory sample is lost rather than stored as None (`SimpleMonitor.GetMemoryDetails`).
- **The size report's folder.** The `--outdir` option (`create-db-sync-stats.py:199`) reaches only the epoch plot. The size report is always written under "stats" (line 218) (`DbStats.Generate`).
