# Energy-simulation batch and its run adapter, modelled in Dafny

This project models the core of a service that runs EnergyPlus over a bucket of building
models. It covers two source files.

**The batch** (`mm_final_energy_sim.py`) works in these steps:

- It lists the simulation inputs (IDF files) and the weather files (EPW files) under two prefixes.
- It parses each IDF name `RCP<scenario>_<aging>_<year>.idf`.
- It finds the weather file for the undotted scenario and the year, then runs the engine.
- It reads two metrics from the engine's output: total site energy, and energy per total building area. It tries the SQL table first, then the tab-separated report, then the comma-separated report.
- It writes each metric into a result workbook. The workbook has a column per (scenario, aging) pair and a row per year from 2025 to 2084.
- It counts successes and failures, and returns a summary.

**The adapter** (`simulation_adapter.py`) keeps one record per run. A record moves through the states PENDING, INITIALISED, RUNNING, then SUCCEEDED or ERROR. The adapter launches the batch in the background, and its HTTP routes report the state with a status code.

Modules:

- `Text`: the Python string operations the source relies on, such as `lower`, `upper`, `strip`, `rstrip`, `replace`, `rsplit("/", 1)[-1]` and `str(int)`.
- `Names`: the two filename patterns, scenario normalisation and the weather index.
- `Sorting`: Python's string order and `sorted`.
- `ReportScan`: the marker search in the text reports.
- `Extraction`: the choice among the SQL table and the two reports.
- `MatrixSpec`: the result workbooks as values.
- `Workbook`: the open sheet and the result store as objects updated in place.
- `Batch`: the batch run, its loop and the imperative methods, each proved equal to a function.
- `BatchProps`: what the batch promises.
- `RunLifecycle`: the run records, the `Adapter` class and sequences of calls.
- `Routes`: status codes and the announced base URL.

Some behaviour of the code is easy to overlook, and the model keeps it:

- The aging pattern `[EFT](?:[12]?\d|2[0-8])` accepts codes 0 to 29, so `E29` parses: the alternative `[12]?\d` already covers 20 to 29.
- Years 2020 to 2024 parse, but the workbook has no row for them, so such an IDF fails at its write (`BatchProps.StepEarlyYearFails`).
- Column headers hold the undotted scenario, for example `RCP85`, because the batch writes with the normalised scenario.
- `$` also matches before one final newline.
- `initialise_run` never stores the configuration it is given, so every record's configuration stays `{}`.
- A failed per-area write after a successful total write counts the IDF as a failure, but the total write stays.
- A weather key that is the empty string counts as missing (`if not epw_key`).

## Model

| member | source | states |
|---|---|---|
| Text.TrimLeft | mm_final_energy_sim.py:170 | the result is the suffix left after dropping the longest prefix of characters in the drop set, as `str.strip` does at the left end |
| Text.TrimRight | mm_final_energy_sim.py:323-324 | the result is a prefix with no dropped character at its end, and everything cut off is a dropped character (`rstrip`) |
| Text.StripOfStripped | mm_final_energy_sim.py:241-243 | a string with no white space at either end is its own `strip()` |
| Text.RemoveSpaces | mm_final_energy_sim.py:51 | no space is left after `replace(" ", "")` |
| Text.RemoveSpacesChar | mm_final_energy_sim.py:51 | a single space is dropped and any other single character is kept |
| Text.RemoveSpacesConcat | mm_final_energy_sim.py:51 | removing spaces distributes over concatenation, so with the single-character case the result is the input with exactly its spaces dropped and every other character kept in order |
| Text.RemoveSpacesAbsent | mm_final_energy_sim.py:51 | removing spaces from a string without spaces changes nothing |
| Text.LastSlash | mm_final_energy_sim.py:103 | the position found holds a `/` and no later position does; -1 means the key has no `/` |
| Text.LastSegmentSuffix | mm_final_energy_sim.py:103 | the name is a suffix of the key with no `/`, preceded by a `/` when it is not the whole key |
| Names.YearValue | mm_final_energy_sim.py:42 | a year token's integer value lies in 2020..2084 |
| Names.YearDigitsRoundTrip | mm_final_energy_sim.py:59 | the four digits of a year in range are a year token and `int` gives the year back |
| Names.YearValueRoundTrip | mm_final_energy_sim.py:59 | a year token is exactly the decimal digits of its value, so no two tokens give one year |
| Names.ParseIdfName | mm_final_energy_sim.py:54-59 | `parse_idf_filename`: the pattern match, the upper-cased groups and `int` of the year, or the "Unrecognized IDF filename" error; characterised by Names.ParseIdfSound and Names.ParseIdfComplete |
| Names.ParseIdfSound | mm_final_energy_sim.py:41-44 | every accepted IDF name gives a dotted scenario, an upper-case aging code E/F/T 0..29 and a year in 2020..2084, and is a case variant of the canonical name of that result |
| Names.ParseIdfComplete | mm_final_energy_sim.py:54-59 | every case variant of a canonical IDF name, with or without one final newline, parses to exactly that result |
| Names.ParseEpwName | mm_final_energy_sim.py:45-48 | the weather-name pattern with its upper-cased scenario and `int` of the year, or no match; characterised by Names.ParseEpwSound and Names.ParseEpwComplete |
| Names.ParseEpwSound | mm_final_energy_sim.py:45-48 | every accepted weather name gives an undotted scenario and a year in 2020..2084, and is a case variant of the canonical name |
| Names.ParseEpwComplete | mm_final_energy_sim.py:45-48 | every case variant of a canonical weather name, with or without one final newline, is accepted with exactly that result |
| Names.NormaliseScenario | mm_final_energy_sim.py:50-52 | `map_rcp_dot_to_nodot`: upper-case, drop spaces, then undot 8.5, 4.5 and 2.6; characterised by Names.NormaliseDotted and Names.NormaliseUndotted, with Text.RemoveSpacesConcat for the spaces |
| Names.NormaliseDotted | mm_final_energy_sim.py:50-52 | a dotted scenario in any case and with any spaces maps to its undotted form |
| Names.NormaliseUndotted | mm_final_energy_sim.py:50-52 | a scenario without dots or spaces is only upper-cased, so undotted forms are left unchanged |
| Names.ParsedScenarioMatchesWeather | mm_final_energy_sim.py:285-287 | the scenario of a parsed IDF name normalises to the undotted form, which is a scenario weather names can carry for the same year |
| Names.IndexEpws | mm_final_energy_sim.py:99-109 | the loop builds exactly the index function over the listing |
| Names.EpwIndexDomain | mm_final_energy_sim.py:99-109 | a (scenario, year) pair is indexed exactly when some listed key's last segment is a matching weather name for it |
| Names.EpwIndexLastWins | mm_final_energy_sim.py:108 | the indexed key is a listed key whose name parses to the pair, and no later-listed key carries the same pair |
| Sorting.BelowTotal | mm_final_energy_sim.py:281 | any two keys are ordered one way or the other |
| Sorting.BelowTransitive | mm_final_energy_sim.py:281 | the key order is transitive |
| Sorting.BelowAntisymmetric | mm_final_energy_sim.py:281 | keys ordered both ways are equal |
| Sorting.Sort | mm_final_energy_sim.py:281 | the sorted keys are the same multiset as the input |
| Sorting.SortSpec | mm_final_energy_sim.py:281 | the result is in Python's string order and a permutation of the input |
| Sorting.SortedUnique | mm_final_energy_sim.py:281 | two sorted permutations of the same keys are equal, so the processing order is determined by the keys alone |
| ReportScan.StripRows | mm_final_energy_sim.py:170 | every cell is stripped and the shape of the rows is kept |
| ReportScan.TotalRowNotBlank | mm_final_energy_sim.py:192-194 | a "total site energy" row is never blank, so the blank-row stop never hides it |
| ReportScan.FirstColumnFrom | mm_final_energy_sim.py:187-188 | the column found is the first one at or after the start that mentions the marker; None means no such column |
| ReportScan.FirstColumnWhenMentioned | mm_final_energy_sim.py:187-188 | the column lookup succeeds exactly when some cell of the row mentions the marker |
| ReportScan.ReadCellsUnderHeader | mm_final_energy_sim.py:185-190 | below a header row both column lookups succeed, so the `StopIteration` branch is unreachable |
| ReportScan.HeaderFrom | mm_final_energy_sim.py:176-182 | the first header row in the window, or none in the whole window |
| ReportScan.TotalRowFrom | mm_final_energy_sim.py:191-194 | the first total row below the header, reached before any blank row |
| ReportScan.FindHeader | mm_final_energy_sim.py:176-184 | the loop finds the same header row as `ReportScan.HeaderFrom`, within the 14 rows after the subsection row |
| ReportScan.FindTotalRow | mm_final_energy_sim.py:191-197 | the loop stops at the first blank row or takes the first total row, matching the function |
| ReportScan.ReadBlock | mm_final_energy_sim.py:175-197 | one subsection block is read as the function reads it |
| ReportScan.Scan | mm_final_energy_sim.py:171-197 | the nested title and subsection loops return the result of the first block that succeeds, as the function does |
| ReportScan.FetchFromTabularText | mm_final_energy_sim.py:166-198 | a missing file gives (None, None); otherwise the stripped rows are scanned as specified |
| ReportScan.ScanBelowFound | mm_final_energy_sim.py:173-190 | a result of the inner search comes from a subsection row in the 39-row window with a complete block, and every earlier complete block in the window gave nothing |
| ReportScan.ScanFromFound | mm_final_energy_sim.py:171-197 | a result of the whole search comes from a complete title, subsection, header and total chain, and no earlier chain exists |
| ReportScan.ScanReportFromFirstMatch | mm_final_energy_sim.py:171-197 | a non-empty result is read from the earliest (title, subsection) match in row order |
| ReportScan.ScanReportWhenMatch | mm_final_energy_sim.py:171-197 | whenever the report has a match, the result is read from a match no later than it |
| ReportScan.TabularMetricsWithoutMatch | mm_final_energy_sim.py:198 | a missing file or a report without any match gives (None, None) |
| Extraction.SafeFloat | mm_final_energy_sim.py:127-131 | `_safe_float`: commas removed and white space stripped before the float parser, which is a parameter giving None where `float` raises; see "## Left out" |
| Extraction.FirstSelected | mm_final_energy_sim.py:139-149 | `fetchone` gives a value exactly when some record meets the WHERE clause, and it is the first such record's value |
| Extraction.SqlMetrics | mm_final_energy_sim.py:133-164 | `fetch_from_sql`: no database gives (None, None); otherwise each metric is the value of the first record its query selects (Extraction.FirstSelected) parsed by Extraction.SafeFloat, and None when no record is selected; used by the SQL clauses of Extraction.ChooseMetrics |
| Extraction.ChooseMetrics | mm_final_energy_sim.py:200-214 | SQL is used exactly when it has either metric. The tab report is used exactly when SQL had neither and the tab report has one. The csv report is used exactly when both had neither and it has one. The tag is "none" exactly when no source has a metric, which is exactly when both metrics are None. The metrics are those of the chosen source |
| Extraction.FetchMetricsAny | mm_final_energy_sim.py:200-214 | the method returns the metrics and the tag of the chosen source |
| MatrixSpec.SetCellWf | mm_final_energy_sim.py:263 | writing a cell keeps `max_column` equal to the largest column in use |
| MatrixSpec.RowForYear | mm_final_energy_sim.py:251-254 | a row exists exactly for 2025..2084; it lies in rows 3..62 and maps back to the year |
| MatrixSpec.RowForYearOnto | mm_final_energy_sim.py:251-254 | every year row is the row of its year |
| MatrixSpec.FreshGridSpec | mm_final_energy_sim.py:216-223 | a fresh sheet has "Year" in A1, an empty A2, each year in its row of column 1, and nothing else |
| MatrixSpec.HeaderLabel | mm_final_energy_sim.py:241-242 | `(v or "").strip()`: an empty or falsy cell reads as "", text is stripped, and any other value is None because `.strip()` raises; characterised through MatrixSpec.FindIn and MatrixSpec.ColumnForSpec |
| MatrixSpec.FindIn | mm_final_energy_sim.py:240-244 | the scan returns the first column whose stripped headers equal the pair, or the first unreadable header before it; Missing means every header was readable and different |
| MatrixSpec.ColumnFor | mm_final_energy_sim.py:238-249 | a resolved column is never column 1 |
| MatrixSpec.ColumnForWf | mm_final_energy_sim.py:238-249 | the column lookup keeps the sheet well formed |
| MatrixSpec.ColumnForSpec | mm_final_energy_sim.py:238-249 | an error means an unreadable header before any match. Otherwise: every column before the result is readable and different; an existing column leaves the sheet unchanged; a new column is `max_column + 1` and gets exactly the two header cells |
| MatrixSpec.WithHeadersKeeps | mm_final_energy_sim.py:245-247 | adding a column after the last keeps the other headers, and the new column reads as the stripped pair |
| MatrixSpec.AppendedColumnFound | mm_final_energy_sim.py:245-247 | after a new column is added for a stripped pair, the scan finds it there |
| MatrixSpec.ColumnForIdempotent | mm_final_energy_sim.py:238-249 | resolving the same stripped pair again finds the same column and adds nothing |
| MatrixSpec.ColumnForKeepsReads | mm_final_energy_sim.py:238-249 | resolving a stripped pair, even when that adds its column, leaves every year of that pair reading as before |
| MatrixSpec.SetCellKeepsOtherReads | mm_final_energy_sim.py:263 | writing one year row of a found column leaves every other year of that pair reading as before |
| MatrixSpec.WriteKeepsColumn | mm_final_energy_sim.py:263 | writing a year cell does not change which column a pair resolves to |
| MatrixSpec.WriteThenRead | mm_final_energy_sim.py:259-263 | after the write, reading the pair and year gives the value written |
| MatrixSpec.WriteKeepsOtherYears | mm_final_energy_sim.py:261-263 | the write leaves every other year of the same pair as it was |
| MatrixSpec.AppendKeepsOtherPairs | mm_final_energy_sim.py:245-247 | adding a column and writing into it leaves every other pair's readings unchanged |
| MatrixSpec.OverwriteKeepsOtherPairs | mm_final_energy_sim.py:263 | writing into an existing column leaves every other pair's readings unchanged |
| MatrixSpec.WriteKeepsOtherPairs | mm_final_energy_sim.py:261-263 | the write leaves every other (scenario, aging) pair's readings unchanged |
| MatrixSpec.WorkbookOrFreshWf | mm_final_energy_sim.py:225-230 | the downloaded or freshly created workbook is well formed |
| MatrixSpec.PutMetric | mm_final_energy_sim.py:256-265 | no value writes nothing. The write fails exactly when the header scan raises or the year has no row. On success it stores the key's workbook and leaves every other workbook as it was |
| MatrixSpec.PutMetricWf | mm_final_energy_sim.py:256-265 | every stored workbook stays well formed |
| MatrixSpec.PutThenRead | mm_final_energy_sim.py:256-265 | after the write, the stored workbook reads back the value for that pair and year |
| MatrixSpec.PutKeepsOtherReads | mm_final_energy_sim.py:256-265 | every other workbook, pair or year reads as before |
| Workbook.Sheet.Fresh | mm_final_energy_sim.py:216-223 | the loop over the years builds exactly the fresh sheet |
| Workbook.Sheet.Load | mm_final_energy_sim.py:225-229 | a loaded sheet is the stored one |
| Workbook.Sheet.ColForPair | mm_final_energy_sim.py:238-249 | the in-place column lookup succeeds exactly when the function does. It leaves the sheet and the column the function gives; on error the sheet is unchanged |
| Workbook.Sheet.Put | mm_final_energy_sim.py:263 | the sheet after the cell write is the function's |
| Workbook.ResultStore.WriteResult | mm_final_energy_sim.py:256-265 | the upload happens exactly when the function succeeds, the store then holds its result, and an error changes nothing |
| Batch.IdfKeys | mm_final_energy_sim.py:272-273 | exactly the listed keys whose lower-cased form ends in `.idf` are kept, each as often as it is listed, so the summary's total is the number of IDF entries listed |
| Batch.WithoutTrailingSlashes | mm_final_energy_sim.py:323-324 | the prefix loses exactly its trailing slashes |
| Batch.PlanOf | mm_final_energy_sim.py:285-292 | the parse, the normalised pair and the weather lookup of one IDF; characterised by BatchProps.PlanOfCases and BatchProps.PlanOfWellPlanned |
| Batch.Step | mm_final_energy_sim.py:283-319 | one iteration of the loop on the workbooks; characterised by BatchProps.StepWithoutWeather, BatchProps.StepWithoutMetrics, BatchProps.StepSucceededReads, BatchProps.StepKeepsOtherResults and BatchProps.StepEarlyYearFails |
| Batch.BatchRun | mm_final_energy_sim.py:267-329 | `run_energy_simulation_from_env`: the two early exits, the loop over the sorted IDF keys and the summary; characterised by BatchProps.BatchAborts, BatchProps.FinishedSummary, BatchProps.BatchSummary and BatchProps.BatchSummarySucceeded, and computed by Batch.RunBatch |
| Batch.ProcessOne | mm_final_energy_sim.py:282-319 | one iteration's outcome and workbooks are the step function's result for that key on the workbooks before it: skipped, failed or written as the IDF's plan and run decide |
| Batch.ProcessNext | mm_final_energy_sim.py:282-319 | one iteration advances the counters, the processed list and the workbooks exactly as the step function's outcome for that key says |
| Batch.ProcessKeys | mm_final_energy_sim.py:281-319 | the loop's counters, processed list and workbooks are those of the step function folded over the sorted keys |
| Batch.RunBatch | mm_final_energy_sim.py:267-329 | the imperative batch returns and stores what the batch function gives |
| BatchProps.ProcessAllCounts | mm_final_energy_sim.py:281-319 | every key counts once as a success or a failure. The processed list has one entry per success, never holds a key more often than it is listed, holds a key only when its step succeeded, and holds every key whose step succeeded; it is in key order when the keys are |
| BatchProps.ProcessAllTally | mm_final_energy_sim.py:281-319 | the counts add up, the processed list has one entry per success and no key more often than listed, and it is in key order when the keys are |
| BatchProps.ProcessedSucceeded | mm_final_energy_sim.py:311-312 | a key is appended to the processed list only at a position where its step succeeded on the workbooks the earlier keys left |
| BatchProps.SucceededProcessed | mm_final_energy_sim.py:311-312 | every key whose step succeeded is in the processed list |
| BatchProps.BatchAborts | mm_final_energy_sim.py:269-275 | the batch exits early exactly when no weather file is indexed or no IDF is listed, and then writes nothing |
| BatchProps.FinishedSummary | mm_final_energy_sim.py:321-329 | a finished batch reports the loop's counts, the number of IDF keys, and the first ten processed keys of the loop over the sorted keys |
| BatchProps.BatchSummary | mm_final_energy_sim.py:321-329 | success plus failed equals the number of listed IDFs. At most 10 processed keys are reported, all listed IDF keys, none more often than listed, and in key order |
| BatchProps.BatchSummarySucceeded | mm_final_energy_sim.py:280-327 | every reported key's step succeeded, and every other key whose step succeeded is above all reported keys: the report holds the first ten successes in key order |
| BatchProps.SortedRunHead | mm_final_energy_sim.py:280-327 | over the sorted keys, successes and failures add up to the number of keys, and the first ten successes are input keys, none more often than listed, in key order |
| BatchProps.RunHeadSucceeded | mm_final_energy_sim.py:280-327 | over sorted keys, the first ten successes are keys whose step succeeded, below every other key whose step succeeded |
| BatchProps.SortedHead | mm_final_energy_sim.py:327 | the first ten of a sorted list are sorted, occur in it, and lie below every element after them |
| BatchProps.PlanOfCases | mm_final_energy_sim.py:285-292 | an IDF is unparsed exactly when its name is rejected. It is ready exactly when the normalised pair has a non-empty weather key, which is the one used |
| BatchProps.PlanOfWellPlanned | mm_final_energy_sim.py:285-292 | a ready IDF has an undotted scenario, a valid aging code, a year in 2020..2084 and a non-empty weather key |
| BatchProps.PlanForWellPlanned | mm_final_energy_sim.py:283-292 | every listed key plans to a well-formed plan |
| BatchProps.WellPlannedStripped | mm_final_energy_sim.py:308-309 | the scenario and aging code a ready IDF writes with equal their own strip |
| BatchProps.StepWithoutWeather | mm_final_energy_sim.py:285-292 | an IDF is skipped exactly when no weather file matches; a skipped or unparsed IDF writes nothing |
| BatchProps.StepWithoutMetrics | mm_final_energy_sim.py:304-306 | a failed run, or a run with neither metric, counts as a failure and writes nothing |
| BatchProps.StepSucceededReads | mm_final_energy_sim.py:302-313 | after a success, each workbook reads back its metric for the pair and year, and a workbook whose metric was None is unchanged there |
| BatchProps.WriteBothReads | mm_final_energy_sim.py:308-309 | the two writes of a success read back as written, in both workbooks |
| BatchProps.PutReads | mm_final_energy_sim.py:256-265 | one optional write reads back its value, and the other workbook reads as before |
| BatchProps.StepKeepsOtherResults | mm_final_energy_sim.py:282-319 | processing one IDF leaves every other (scenario, aging, year) cell of every workbook as it was |
| BatchProps.WriteBothKeeps | mm_final_energy_sim.py:308-309 | the two writes leave every other pair and year unchanged, even when the second fails |
| BatchProps.StepEarlyYearFails | mm_final_energy_sim.py:251-254 | an IDF for a year before 2025 fails at its write and leaves the workbooks unchanged |
| RunLifecycle.CompletionOf | mm_final_energy_sim.py:269-275 | the batch function raises `SystemExit` exactly when it aborts, and otherwise returns its summary dict |
| RunLifecycle.NewRecord | simulation_adapter.py:109 | a new record is PENDING with an empty configuration, no result and no error |
| RunLifecycle.RunIdPrefix | simulation_adapter.py:107 | the id prefix is RUN_ID_PREFIX when set, otherwise "run" |
| RunLifecycle.Create | simulation_adapter.py:106-110 | the run gets a new PENDING record and every other record is untouched |
| RunLifecycle.Initialise | simulation_adapter.py:112-119 | an unknown id is an error that changes nothing. PENDING and INITIALISED become INITIALISED and other states stay; the configuration argument is ignored and other runs are untouched |
| RunLifecycle.Start | simulation_adapter.py:121-132 | an unknown id is an error. The batch is launched exactly for PENDING or INITIALISED, which become RUNNING; otherwise nothing changes |
| RunLifecycle.PayloadOf | simulation_adapter.py:147 | a dict result is kept as the result, any other value becomes the completion message |
| RunLifecycle.SettleAsWritten | simulation_adapter.py:134-157 | a `SystemExit` leaves the record as it was; any other end settles it like the corrected completion |
| RunLifecycle.Settle | simulation_adapter.py:147-157 | every end of the batch leaves the record finished. It is SUCCEEDED exactly when the batch returned, with its payload; otherwise ERROR with the message |
| RunLifecycle.Finish | simulation_adapter.py:148-157 | only the run's own record is settled, and a removed run is not recreated |
| RunLifecycle.Get | simulation_adapter.py:159-164 | the record of a known id, otherwise the "does not exist" error |
| RunLifecycle.Remove | simulation_adapter.py:166-168 | the id is gone whether or not it existed, and every other record is untouched |
| RunLifecycle.Adapter.CreateRun | simulation_adapter.py:106-110 | the id is the prefix, a dash and the random token, and the runs become the function's |
| RunLifecycle.Adapter.InitialiseRun | simulation_adapter.py:112-119 | returns and stores what the function gives |
| RunLifecycle.Adapter.StartRun | simulation_adapter.py:121-132 | returns, stores and launches what the function gives |
| RunLifecycle.Adapter.FinishRun | simulation_adapter.py:147-157 | the runs become the corrected completion's |
| RunLifecycle.Adapter.GetRun | simulation_adapter.py:159-164 | returns the function's answer and changes nothing |
| RunLifecycle.Adapter.RemoveRun | simulation_adapter.py:166-168 | the runs become the function's |
| RunLifecycle.ReplayConsistent | simulation_adapter.py:106-168 | under any sequence of calls: a SUCCEEDED run has a result, an ERROR run has an error, an unfinished run has neither, and no configuration is ever stored |
| RunLifecycle.TerminalAbsorbing | simulation_adapter.py:117-127 | SUCCEEDED and ERROR records stay exactly as they are under any calls that do not recreate, settle or remove them |
| RunLifecycle.RunningStaysRunning | simulation_adapter.py:117-132 | only the end of its batch moves a RUNNING record on: initialising, starting again and other runs' calls do not |
| RunLifecycle.StartIdempotent | simulation_adapter.py:126-127 | a second start changes nothing and launches nothing |
| RunLifecycle.FinishSettles | simulation_adapter.py:147-157 | a launched run always ends finished, SUCCEEDED exactly when the batch returned |
| RunLifecycle.ExitLeavesRunningAsWritten | simulation_adapter.py:134-157 | as written, a batch that aborts leaves its run RUNNING for good |
| RunLifecycle.ExitSettlesAsError | simulation_adapter.py:152-157 | corrected, an aborted batch leaves its run in ERROR with the exit reason |
| Routes.KeyErrorText | simulation_adapter.py:200 | `str(KeyError(msg))`: the message between single quotes, the text the 404 replies carry; see "## Left out" for quoting |
| Routes.NotFound | simulation_adapter.py:199-200 | an unknown id answers 404 with the error text |
| Routes.InitialiseRoute | simulation_adapter.py:193-200 | 404 exactly for an unknown id; otherwise 200 with the state and the stored configuration |
| Routes.RunRoute | simulation_adapter.py:202-209 | 404 exactly for an unknown id; otherwise 400 exactly when the run is in ERROR and 200 otherwise, with the state and error |
| Routes.StatusRoute | simulation_adapter.py:211-217 | 404 exactly for an unknown id; otherwise 200 with the state and error |
| Routes.ResultsRoute | simulation_adapter.py:219-229 | 404 exactly for an unknown id; otherwise 200 exactly for SUCCEEDED (with the result), 400 exactly for ERROR (with the error), and 202 exactly while unfinished |
| Routes.RemoveRoute | simulation_adapter.py:231-234 | always 200 with the removed id |
| Routes.UnknownRunNotFound | simulation_adapter.py:193-229 | an unknown id gives the same 404 on initialise, run, status and results, and changes no record |
| Routes.RemoveThenNotFound | simulation_adapter.py:231-234 | removal answers 200, and afterwards status and results answer 404 |
| Routes.StartReply | simulation_adapter.py:202-209 | starting a known run answers 400 exactly when it was in ERROR; the reported state is RUNNING unless the run had finished |
| Routes.ResultsPendingIffUnfinished | simulation_adapter.py:211-229 | results answers 202 exactly when status reports an unfinished state |
| Routes.ResultsAfterFinish | simulation_adapter.py:219-229 | after the batch ends, results answers 200 with the payload exactly when the batch returned, and 400 with an error otherwise |
| Routes.ResultsPendingForeverAsWritten | simulation_adapter.py:219-229 | as written, after an aborted batch the results route answers 202 for as long as the run exists |
| Routes.PublicHost | simulation_adapter.py:35 | the host is ADAPTER_PUBLIC_HOST if non-empty, else ADAPTER_SERVICE if non-empty, else the default service |
| Routes.PublicPort | simulation_adapter.py:36 | the port is ADAPTER_PUBLIC_PORT if non-empty, else ADAPTER_PORT as set, even when empty, else "8000" |
| Routes.PublicBaseUrl | simulation_adapter.py:31-37 | with a non-empty ADAPTER_PUBLIC_URL the result is that URL with exactly its trailing slashes removed |
| Routes.BaseUrlParts | simulation_adapter.py:37 | otherwise the URL is `http://`, the host, one colon and the port, whatever the host holds |
| Routes.BaseUrlFirstColon | simulation_adapter.py:37 | when the host has no colon, the first colon after the scheme is the one before the port |

## Findings

| source | as written | input that shows it | evidently intended | confidence | as-written member | corrected member |
|---|---|---|---|---|---|---|
| simulation_adapter.py:152 | `_exec_run` catches only `Exception`. The batch raises `SystemExit` when it finds no weather file or no IDF (mm_final_energy_sim.py:271, 275), and `SystemExit` is not an `Exception`. The record is never settled, and because `start_run` does not relaunch a RUNNING run, it stays RUNNING and results answer 202 for good | an empty weather listing, or a listing with no `.idf` key, then `POST /model/run/<id>` | the run ends in ERROR with the exit message, so results answer 400 | high; not executed | RunLifecycle.ExitLeavesRunningAsWritten | RunLifecycle.ExitSettlesAsError |

`RunLifecycle.Adapter.FinishRun` uses the corrected completion `RunLifecycle.Settle`.

## Left out

- Object storage I/O is not modelled: listing pagination, `object_exists`, downloads and uploads. Listings are given as sequences of keys, the bucket is a map from key to workbook, and an upload replaces the whole workbook.
- Workbook serialisation through openpyxl is not modelled, nor the sheet title or the column width of 16. A workbook is its active sheet's cells and `max_column`, and a read-back cell value is text, integer, real or boolean.
- `run_energyplus` and the two downloads are not modelled as processes. Together they are the oracle `Batch.Engine`, which gives the output directory or None when any of them raised. The engine's exit codes, timeout and stdout/stderr text are not modelled because the batch only prints them.
- The SQLite query is not run. The output database is a sequence of records, and `fetchone` takes the first matching record in that sequence; the query has no ORDER BY, so the real row order is unspecified.
- Reading a report file with `csv.reader` (quoting, decoding with `errors="ignore"`) is not modelled; the file is given as its rows of cells.
- Extraction.ChooseMetrics: a read that raises is not modelled. This covers an `eplusout.sql` that is not a database or has no `TabularDataWithStrings` table, and a report file that exists but cannot be opened. In the source such an error leaves `fetch_metrics_any` without trying the next source, and the IDF counts as failed with nothing written. In the batch that is the same outcome as `Batch.Engine` giving None.
- Extraction.SafeFloat: the float parser is a parameter, so which strings parse as floats is not modelled.
- Temporary directories, `KEEP_OUTPUTS`, cleanup and progress printing are not modelled.
- MatrixSpec.PutMetric: only the errors of the header scan and the year row are modelled. A storage failure during the download or upload of a workbook is not modelled; in the batch it would count as a failure.
- Batch.RunBatch: an exception raised while listing the bucket is outside the batch model. It reaches the adapter as `RunLifecycle.Completion.Raised`.
- Text.Lower: only ASCII case mapping is modelled. Python's `IGNORECASE`, `lower()` and `upper()` also act on some non-ASCII letters, for example a dotless `ı` in the `.idf` extension.
- Names.ParseIdfName: Python's `\d` also matches non-ASCII decimal digits, which `int()` accepts; only ASCII digits are modelled, and likewise in Names.ParseEpwName.
- Threads, the adapter's lock and the save, update and restore of `os.environ` in `_exec_run` are not modelled. These concern concurrency and process state; the end of a launched batch is the separate call `FinishRun`. This also leaves out the concurrent read-modify-write race on the shared workbooks.
- `_exec_run` falls back to `run_energy_model_from_env` and raises `AttributeError` when neither function exists. This is not modelled: the loaded module always defines `run_energy_simulation_from_env`.
- RunLifecycle.Adapter.GetRun returns the record as a value. The source returns the dictionary itself, which the background thread may later update.
- RunLifecycle.Adapter.CreateRun: the random `uuid4` part of the id is the parameter `token`.
- `register_with_registry` and its heartbeat thread, `load_simulation_model`, the Flask application, the `/health` and `/model/request` handlers, and request JSON parsing are not modelled; they are network and framework glue.
- Routes.KeyErrorText: the text of a `KeyError` is the message in single quotes. Python's `repr` escaping for ids that contain quotes, backslashes or unprintable characters is not modelled.
