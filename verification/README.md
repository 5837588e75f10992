# mpas_app workflow helpers, modelled in Dafny

This project models the pure decision logic inside the Python helpers of the MPAS
application workflow (NOAA-GSL/mpas_app) and proves properties of it.

- **Data retrieval** (`ush/retrieve_data.py`). Argument ranges and lead-time strings are
  expanded. File names are looked up by file set and format. Two generators produce
  candidate copy manifests:
  - one for disk and URL stores, which accumulates across locations;
  - one for the tape archive, which builds `htar://` addresses.

  The controller tries stores in priority order, and within a store it tries manifests
  in order. The first manifest whose transfer reports everything in place wins.
- **Cyclone tracker driver** (`drivers/tracker.py`). This covers:
  - the forecast hours;
  - the fixed-width `fort.15` table;
  - the combined-file, link and index-file names;
  - the storm-vitals filter, which keys each line by its first 19 characters, lets the
    last duplicate win, and sorts by key.
- **Configuration validation** (`ush/validation.py`). Every field of the `user` block is
  checked for presence, type and bounds. Then come the cycle-order check and the
  driver-suffix check.
- **Experiment generation** (`ush/experiment_gen.py`). Each model section gets a
  processor count. The mesh is partitioned only for counts that have no partition file
  yet.
- **Key-path walk** (`scripts/utils.py`). This navigates a nested configuration.
- **Time-window check** (`ush/check_time.py`). This decides whether the current time of
  day lies inside a window, which may wrap past midnight.

The modules follow the source files:

| module | file |
|---|---|
| `Results` | shared result types |
| `Text` | Python integer formatting, `split`/`join`, string order |
| `PyCollections` | `range`, `dict.update`, nested-loop flattening |
| `RetrieveArgs`, `RetrieveManifests`, `RetrieveControl` | `ush/retrieve_data.py` |
| `Tracker` | `drivers/tracker.py` |
| `Validation` | `ush/validation.py` |
| `ExperimentGen` | `ush/experiment_gen.py` |
| `Utils` | `scripts/utils.py` |
| `CheckTime` | `ush/check_time.py` |

Other modelling choices:

- **Oracles.** The template engine and the copy/link layer become function-typed
  parameters: `render` and `transfer`. So does the partitioner run, `runs`.
- **Generators.** A generator is modelled as the finite sequence of manifests it
  yields, plus the exception it raises after them, if any.
- **Errors.** Python exceptions and `sys.exit` become values of the `Error` datatype.
- **Times.** These are integers: lead times in seconds, and times of day in
  microseconds.

## Model

| member | source | states |
|---|---|---|
| PyCollections.Range | ush/retrieve_data.py:85 | Python `range`: starts at `start`, moves by `step`, and stays strictly before `stop` in the direction of the step |
| PyCollections.RangeStops | ush/retrieve_data.py:85 | the range ends at its last element before `stop`: one more step would reach or pass `stop` |
| PyCollections.Timedelta | ush/retrieve_data.py:98 | a duration fits a `timedelta` exactly when it lies from -999999999 days up to, but not including, 10^9 days; otherwise it is the `OverflowError` |
| PyCollections.RangeMembers | ush/retrieve_data.py:85 | with a positive step, `x` is in the range exactly when `start <= x < stop` and `x` is `start` plus a whole number of steps |
| PyCollections.UpdateLastWins | ush/retrieve_data.py:398 | after `dict.update` with a list of pairs, a key holds the value of its last pair |
| RetrieveArgs.ArgListToRange | ush/retrieve_data.py:80-87 | a list of length other than 2 or 3 is returned unchanged; a length-3 list with increment 0 is a `ValueError`, and no other list fails |
| RetrieveArgs.ArgPairInclusive | ush/retrieve_data.py:83-85 | `[a, b]` is exactly `a, a+1, …, b` (empty when `b < a`) |
| RetrieveArgs.ArgTripleMembers | ush/retrieve_data.py:83-85 | with `c > 0`, `[a, b, c]` holds exactly the values `a + k*c` not above `b`, so `b` is included when reachable |
| RetrieveArgs.LeadTimeSeconds | ush/retrieve_data.py:90-99 | exits with status 1 and the usage message exactly when the text does not start with a digit; any other failure is the `OverflowError` of `timedelta`; a result is non-negative and under 10^9 days |
| RetrieveArgs.LeadTimeRoundTrip | ush/retrieve_data.py:96-98 | `h:m:s` followed by any non-digit text parses to `h*3600 + m*60 + s` seconds when that is under 10^9 days, and is the `OverflowError` otherwise |
| RetrieveArgs.LeadTimeHoursMinutes | ush/retrieve_data.py:96-98 | `h:m`, not followed by a digit or `:`, parses to `h*3600 + m*60` seconds (missing seconds count as 0) when that is under 10^9 days, and is the `OverflowError` otherwise |
| RetrieveArgs.LeadTimeOfHour | ush/retrieve_data.py:217 | the lead time of `str(t)` is `t` hours for `0 <= t < 24000000000`; a negative hour ends the program with status 1; an hour of 10^9 days or more is the `OverflowError` |
| RetrieveArgs.LeadTimesOfHours | ush/retrieve_data.py:217 | succeeds exactly when every forecast hour is at least 0 and below 24000000000; then it gives one lead time per hour; a failure is the exit or the `OverflowError` |
| RetrieveArgs.LeadTimesAreHours | ush/retrieve_data.py:217 | the `i`-th lead time is the `i`-th forecast hour in seconds |
| RetrieveArgs.ParseArgs | ush/retrieve_data.py:216-241 | the arguments pass exactly when both ranges expand, every hour is non-negative and below 10^9 days, `disk` comes with an input path and `hpss` comes with the archive client; the checks fail in source order (forecast-hour range, lead times, member range, then the disk check before the `hpss` probe), each with its own error; the disk check is the only `ArgumentTypeError`, and an `OverflowError` comes only from the lead times |
| RetrieveArgs.ParseArgsHugeHour | ush/retrieve_data.py:98 | a forecast hour of 24000000000 (10^9 days) stops the parse with the `OverflowError` |
| RetrieveManifests.GetFileNames | ush/retrieve_data.py:244-250 | a missing file set gives `[]`; a list is returned whatever the format; a dict is looked up by the format, or `""` for none, with `[]` as the default |
| RetrieveManifests.MemberPrefix | ush/retrieve_data.py:372 | the prefix is empty exactly for member `-999`; otherwise it is `mem…/` |
| RetrieveManifests.TargetKeyInjective | ush/retrieve_data.py:336-340 | two named members' destinations coincide only for the same member and template |
| RetrieveManifests.StepsOrder | ush/retrieve_data.py:369-370 | members are the outer loop and lead times the inner: member `i` with lead time `j` comes after `i` whole blocks of lead times, at position `j` of its block |
| RetrieveManifests.FileItem | ush/retrieve_data.py:373-384 | building an item fails exactly when a list location's length differs from the template count and no earlier item exists; that failure is an unbound local |
| RetrieveManifests.FileItemEntries | ush/retrieve_data.py:372-398 | a well-formed item holds every rendered destination; each entry maps a destination to that template, rendered, under its location (paired by position for a list) |
| RetrieveManifests.LocationItemAt | ush/retrieve_data.py:369-398 | step `k` builds its item from the item of step `k-1` |
| RetrieveManifests.FsItems | ush/retrieve_data.py:368-399 | every location is walked unless an unbound local cuts the walk short; each walked location yields one item per step |
| RetrieveManifests.PrepareFsCopyConfig | ush/retrieve_data.py:359-399 | one manifest per location, unless an unbound local cuts the walk short |
| RetrieveManifests.AccumulateIsUnion | ush/retrieve_data.py:367-399 | the `k`-th manifest is the one accumulator updated with every entry of locations `0..k`, a later entry overwriting an earlier one with the same key |
| RetrieveManifests.AccumulateGrows | ush/retrieve_data.py:367-399 | no key of an earlier manifest is missing from a later one |
| RetrieveManifests.HtarAddress | ush/retrieve_data.py:330 | every archive address starts with `htar://` |
| RetrieveManifests.HpssManifestEntries | ush/retrieve_data.py:331-356 | an archive manifest is built fresh; it holds every requested destination, and each entry maps one to its template under the manifest's own address |
| RetrieveManifests.HpssOrder | ush/retrieve_data.py:327-330 | there is exactly one archive manifest per location, directory and name, ordered location, then directory, then name |
| RetrieveManifests.PossibleHpssConfigs | ush/retrieve_data.py:318-356 | a missing `archive_internal_dirs` raises `KeyError` before anything is yielded, and only when there is a location |
| RetrieveControl.TryManifests | ush/retrieve_data.py:444-451 | a store returns an accepted manifest (something ready, nothing not ready); it comes back empty-handed exactly when no manifest passes; a generator exception surfaces only after every manifest before it failed |
| RetrieveControl.TryManifestsFirst | ush/retrieve_data.py:444-449 | the manifest returned is the first accepted one |
| RetrieveControl.TryManifestsLoop | ush/retrieve_data.py:444-451 | the loop returns what `TryManifests` states, after exactly one transfer per manifest up to and including the first accepted one |
| RetrieveControl.ArchiveNamesOf | ush/retrieve_data.py:284-287 | the hpss archive names fail exactly when the entry is missing, and a null entry stays null |
| RetrieveControl.StoreNames | ush/retrieve_data.py:289-291 | the disk store, or a store with no or empty `file_names`, has no names of its own |
| RetrieveControl.StoreManifests | ush/retrieve_data.py:423-443 | the only failure is hpss with null archive names, the assertion in `try_data_store` |
| RetrieveControl.TemplatesAsWritten | ush/retrieve_data.py:297-299 | the disk store uses the user's templates whenever none is empty, otherwise the store's names or the standard ones |
| RetrieveControl.TemplatesIntended | ush/retrieve_data.py:297-299 | the user's templates are used only when some were given; the result is empty only when no names exist anywhere |
| RetrieveControl.StoreAttempt | ush/retrieve_data.py:277-309 | the disk store needs an input path; other stores need a known file set and a configuration block, with `KeyError` naming the store; any manifest found passes its transfer |
| RetrieveControl.StoreLoopFirst | ush/retrieve_data.py:275-315 | the loop's outcome is that of the first store that found something or failed; it is nothing found when every store found nothing |
| RetrieveControl.RetrieveData | ush/retrieve_data.py:253-315 | a missing data type or `file_names` is a `KeyError`; a summary is written exactly on success with a summary file, and it names that file |
| RetrieveControl.RetrieveDataSuccess | ush/retrieve_data.py:275-315 | a success comes from the first decisive store; that store's manifest passed, and it is the one summarised |
| Tracker.ForecastHours | drivers/tracker.py:211-215 | a zero frequency is a `ValueError`; with a positive frequency no hour is negative or above `endhour` |
| Tracker.ForecastHourMembers | drivers/tracker.py:215 | with a positive frequency the hours are exactly the multiples of the frequency from 0 to `endhour` inclusive |
| Tracker.InputFileHours | drivers/tracker.py:214-216 | the loop gets through its hours exactly when the range is valid and each hour fits a `timedelta`; then the hours are those of the range; a failure is the `ValueError` or the `OverflowError` |
| Tracker.InputFileHoursBound | drivers/tracker.py:214-216 | with a positive frequency, the loop gets through exactly when no hour of the range reaches 24000000000 |
| Tracker.ForecastHoursIncrease | drivers/tracker.py:214-225 | the hours strictly increase, so the map has one entry per hour |
| Tracker.Fort15LineRoundTrip | drivers/tracker.py:41 | a `fort.15` line reads back as its position and the forecast minute |
| Tracker.Fort15RoundTrip | drivers/tracker.py:41-43 | splitting `fort.15` at newlines gives one line per hour; line `i` reads back as `i+1` and `hours[i]*60`; no hours give an empty file |
| Tracker.CombinedFileHour | drivers/tracker.py:50 | the hour can be read back from a combined file's name |
| Tracker.CombinedFileNameInjective | drivers/tracker.py:50 | different hours have different combined files |
| Tracker.LinkNameInjective | drivers/tracker.py:82 | within a cycle, different hours have different link names |
| Tracker.PathJoin | drivers/tracker.py:83-85 | joining an absolute name gives the name; any result ends with the name |
| Tracker.LinksDistinct | drivers/tracker.py:79-85 | for distinct hours, as the keys of the input-file map are, no two links share a target or a path, so no link replaces another |
| Tracker.IndexFilesAbsolute | drivers/tracker.py:94-99 | under an absolute run directory, the index files as written are the link paths with `.ix` added |
| Tracker.IndexFilesRelativeDoubled | drivers/tracker.py:96-99 | under a relative run directory, the index file as written lies under the run directory twice, away from its input |
| Tracker.VitalsEntries | drivers/tracker.py:125-131 | every entry is a line of the file that mentions the cycle and is at least 19 characters long, keyed by its first 19 characters |
| Tracker.VitalsDataIsLast | drivers/tracker.py:123-131 | a key is in the vitals dict exactly when some kept line has it, and it holds the last such line |
| Tracker.KeySeq | drivers/tracker.py:132 | the keys of the dict, once each |
| Tracker.VitalsLastPerKey | drivers/tracker.py:122-132 | every output line is the last kept input line with its key, and the output keys strictly increase |
| Tracker.VitalsEveryKey | drivers/tracker.py:125-132 | every kept input line has its key in the output |
| Tracker.AllVitRoundTrip | drivers/tracker.py:132-134 | splitting `allvit` at newlines gives back the vitals lines |
| Validation.PositiveIntIssues | ush/validation.py:29 | a positive-integer field passes exactly when given and above 0 |
| Validation.NonNegativeIntIssues | ush/validation.py:19 | a non-negative-integer field passes exactly when given and at least 0 |
| Validation.ModelIssues | ush/validation.py:10 | an external model passes exactly when it is `GFS` or `RAP` |
| Validation.ICsIssues | ush/validation.py:17-19 | the `ics` block passes exactly when present with a known external model and a non-negative offset; an absent block is required |
| Validation.LBCsIssues | ush/validation.py:22-25 | the `lbcs` block passes exactly when present with a known external model, a positive interval and a non-negative offset |
| Validation.FieldIssuesExactly | ush/validation.py:17-38 | the block has field errors exactly when some field is absent, null where that is not allowed, or out of bounds |
| Validation.RequiredFields | ush/validation.py:28-38 | every field except `driver_validation_blocks` is required, and an absent one is reported at its own location |
| Validation.DriverBlocksOptional | ush/validation.py:30 | an absent `driver_validation_blocks` draws no error at its location |
| Validation.FirstAndLastCycle | ush/validation.py:40-45 | the block is refused exactly when the last cycle precedes the first; equal cycles pass |
| Validation.DriverName | ush/validation.py:51 | the driver is the text after the last `.`, or the whole key path when there is none |
| Validation.FirstUnsupported | ush/validation.py:50-57 | nothing is reported exactly when every driver is supported; otherwise it is the first unsupported one |
| Validation.ValidateDriverBlocks | ush/validation.py:47-58 | every key path must end in a supported driver; an absent or null list passes; the error names the first unsupported driver |
| Validation.Validate | ush/validation.py:61-62 | a configuration is valid exactly when its `user` block is acceptable field by field, in cycle order and in its drivers; the valid block carries the given values |
| ExperimentGen.PresentFilters | ush/experiment_gen.py:103-108 | the kept sections are exactly the listed sections whose name the configuration has, and any two of them keep the order in which they are listed |
| ExperimentGen.NprocsPerSection | ush/experiment_gen.py:102-112 | each section present gives one count, in section order: `cores` when not null, else `nodes * tasks_per_node` |
| ExperimentGen.NprocsFailure | ush/experiment_gen.py:108-111 | the counts fail, with a `KeyError`, exactly when a present section lacks its resources or gives neither `cores` nor both factors |
| ExperimentGen.PartFileNameInjective | ush/experiment_gen.py:114 | different counts have different partition files |
| ExperimentGen.Partition | ush/experiment_gen.py:113-116 | the partitioner runs only for counts whose part file is missing; a failed run exits with status 1 |
| ExperimentGen.PartitionOnlyMissing | ush/experiment_gen.py:113-116 | when runs succeed, the partitioner runs exactly once for each count whose file is missing, however many sections share it |
| ExperimentGen.PartitionCompletes | ush/experiment_gen.py:113-116 | after a successful pass every count has its partition file |
| ExperimentGen.PartitionFails | ush/experiment_gen.py:113-116 | the pass over the counts fails, through the exit with status 1 inside `create_grid_files` (lines 31-38), exactly when some count has no partition file when its turn comes and the partitioner fails for it |
| Utils.WalkFrom | scripts/utils.py:60-71 | the walk fails only with a `KeyError` for a key on the path or with exit status 1 |
| Utils.WalkKeyPath | scripts/utils.py:54-72 | an empty path returns the configuration unchanged |
| Utils.WalkIsLookup | scripts/utils.py:60-72 | the walk succeeds exactly when every value along the path, the last included, is a dict; then it gives the value that indexing with each key reaches |
| Utils.WalkStops | scripts/utils.py:63-70 | the walk stops at the first missing key with `KeyError`, or at the first non-dict with exit 1 and the path up to it |
| Utils.WalkAppend | scripts/utils.py:58-72 | walking `p + q` is walking `p` and then `q` |
| CheckTime.ExitStatus | ush/check_time.py:14-20 | the status is 0 exactly when the time is strictly inside the window, going forward around the clock; otherwise it is 1 |
| CheckTime.WindowCases | ush/check_time.py:14-20 | an ordinary window is `begin < now < end`; a wrapping one is `now > begin or now < end`; a window whose ends coincide is empty |
| CheckTime.WindowComplement | ush/check_time.py:14-20 | away from its ends, a time is in exactly one of a window and the window with its ends swapped |

## Left out

- **Transfers, rendering, partitioning.** Copying or linking files (`fs.copy`/`fs.link`), Jinja rendering (`dereference`, `get_yaml_config`) and the `gpmetis` run are oracles. The model says nothing about what they do.
- **Parsing before the checks.** The argparse definitions, `int` coercion of arguments, and string inputs to `_arg_list_to_range` are left out. The model starts from the integer lists argparse produces.
- **Probing for `hsi`.** The subprocess that probes for `hsi` is the boolean `hsiAvailable`.
- **Reading the window in check_time.** `begin` and `end` come from `strptime(argv[i], "%H:%M:%S")` (ush/check_time.py:8-12). The model starts from microseconds past midnight; `begin` and `end` are whole seconds, so multiples of 1000000. A missing argument (`IndexError`) or a malformed time (`ValueError`) ends the script with an uncaught exception and status 1; this is not modelled.
- **Side effects.** Logging, printing, writing the summary YAML, `datetime.now`, and the `cat`/`grb2index` commands are not modelled. Nor are the tracker's namelist and its other vitals links.
- **The exit status of `retrieve_data.py`.** `main` ignores what `retrieve_data` returns, so the program exits 0 when no store succeeds.
- **The cycle-only dereference** of the whole configuration (ush/retrieve_data.py:274). The standard file names are looked up at line 273, before it; the archive names, the store's own file names and the store blocks are read after it. The model reads all of them from one configuration, so a `file_names` entry that the dereference would change is not represented.
- **Year formatting.** `strftime` pads years below 1000 to four digits in the model. The platform's own rule for such years is not modelled.
- **`\r` in the vitals file.** Universal-newline translation of `\r` is not modelled: the file is split at `\n` only.
- **Paths.** `Path` normalisation (repeated or trailing slashes, `..`) is not modelled. The run directory is taken in the form `str(Path(...))` prints.
- **Validation coercion.** pydantic's coercion of strings to numbers, paths and datetimes is not modelled. Field values arrive already typed, and a wrongly typed value is not represented. Cycles are integers, so naive-versus-aware datetime comparison errors are not modelled.
- **Supported drivers.** The set of supported drivers, read from the driver registry, is a parameter.
- **Resource lookups in experiment_gen.** A missing key anywhere in `<section>.<driver>.execution.batchargs` is one `KeyError` naming the driver. A null `nodes` or `tasks_per_node`, a `TypeError` in Python, is not represented.
- **Configuration merging** in experiment_gen `main` (ush/experiment_gen.py:41-95) and `run_shell_cmd` in scripts/utils.py are not modelled.
- **Grid-file staging.** `create_grid_files` is modelled only as the run oracle and its exit status. A successful run is assumed to leave the partition file behind.
- RetrieveManifests.Dereference: the contract states only that every rendered key is present. The entries themselves are stated by DereferencedFrom and FileItemEntries.
- RetrieveManifests.PrepareFsCopyConfig: the contract states only how many manifests there are and what the error is. Their contents are stated by AccumulateIsUnion, FsItems and FileItemEntries.
- RetrieveControl.TryManifests: a transfer's report depends only on the manifest and the link-or-copy choice. Files that earlier attempts or earlier stores already put in the shared output directory are not represented, so a later transfer cannot see them.
- RetrieveArgs.LeadTimeSeconds: only the ASCII digits `0`-`9` count as digits. Python's `\d` and `int()` also accept other Unicode decimal digits. The text parsed is always `str()` of an integer hour (ush/retrieve_data.py:217), which has only ASCII digits.
- RetrieveManifests.ListRepr: each item is quoted with `'` and nothing is escaped. Python's `str(list)` quotes an item containing `'` with `"` and escapes backslashes. This affects only the htar address of an archive location given as a list.
- Tracker.ForecastHours: the input file paths rendered for each hour are not modelled, only the hours that key the map. The `timedelta(hours=fhr)` each hour goes through (drivers/tracker.py:216) is modelled by Tracker.InputFileHours.
- PyCollections.Timedelta: the `OverflowError` carries one fixed message. CPython's text names the day count, and for counts beyond a C int it is a different message.

## Findings

| source | as written | input that shows it | evidently intended | confidence | as-written member | corrected member |
|---|---|---|---|---|---|---|
| ush/retrieve_data.py:297-299 | the disk store uses the user's templates when `all(file_templates)` holds, and `all([])` is true | `--data-stores disk --input-file-path p` without `--file-templates` (default `[]`): no file names are tried, so every manifest is empty and no manifest can pass | without templates, the default names are used, as the `--file-templates` help text says | high, not executed | RetrieveControl.NoTemplatesAsWritten | RetrieveControl.TemplatesIntended |
| ush/retrieve_data.py:275-315 | `success` is assigned only inside the store loop | `--data-stores` given with no values (`nargs="*"`): `return success` raises `UnboundLocalError` | with no stores, nothing is retrieved and the result is false | high, not executed | RetrieveControl.NoStoresAsWritten | RetrieveControl.NoStoresIntended |
| drivers/tracker.py:96-99 | the index file is `rundir / f"{infile}.ix"`, where `infile` already starts with `rundir` | run directory `run`: the input is `run/mpas.trak.all.….f00000` but its index is `run/run/mpas.trak.all.….f00000.ix` | the index file sits next to its input, `infile + ".ix"` | medium, not executed | Tracker.IndexFilesRelativeDoubled | Tracker.IndexFilesBesideLinks |
