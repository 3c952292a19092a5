# ANGLE test statistics script, modelled in Dafny

`scripts/generate_stats.py` collects the results of ANGLE's test bots and writes
them to a spreadsheet. For each bot it asks the build tool (`bb ls`) for the
fields of the latest successful build: build name and link, time, date and the
two revisions. It asks `bb get -steps` for the names of the build's `angle_`
test steps. From each step's log (`bb log`) it reads the `*RESULT: <key>:
<value>` lines into a map of statistics. It then gives every step a sheet whose
name is built from the bot name and the test's frontend and backend. It lists
the sheets that do not exist yet and grows each sheet's header row, so the row
holds the required columns and every statistic key. Finally it builds, for every
step, a row of values aligned with that header. A command-line option chooses
the logging level.

This project models that pipeline on the captured text of the commands, and
proves what each stage computes.

- `wrappers.dfy` (`Wrappers`): `Option`, and `Outcome`, which is a value or the
  name of the Python exception raised instead. It also holds the two folds the
  log parsers share: applying a reader to every line, and keeping what the
  reader found.
- `text.dfy` (`Text`): the Python 2 string operations the script relies on. These
  are `in`, `find`, `split(sep)`, `split(sep, 1)`, `join`, `strip`, `split()`,
  `splitlines`, `replace`, `filter(str.isalnum, ...)`, `int` and `str`. Each
  comes with the laws the rest of the model uses.
- `step_stats.dfy` (`StepStats`): the log-parsing loop of `get_step_info`,
  `validate_step_info`, and the whole of `get_step_info` on the captured output.
- `build_info.dfy` (`BuildInfo`): the line loop and the checks of
  `get_latest_success_build_info`, the two patterns it matches, and
  `get_step_names`.
- `sheet_name.dfy` (`SheetNaming`): `format_sheet_name`.
- `sheets.dfy` (`Sheets`): `get_sheet_names`, `sheet_exists`, `validate_sheets`,
  and the header-merging part of `update_headers` as the class `HeaderTable`. Its
  field `rows` is the map of header rows that the script grows in place. The
  row-building part of `update_values` is a method of the same class, because it
  reads the grown map. These operations take the sheet-naming function as an
  argument (`Naming`). `FormatNamed` and `SheetNamesNeedAngle` instantiate that
  argument with `SheetNaming.FormatSheetName`.
- `verbosity.dfy` (`Verbosity`): the level choice of `initialize_logging`.

Python's dictionaries are iterated in an order the language leaves open. The
model takes that order as data:
- the bots are a sequence;
- each bot's step names are the list `get_step_names` returned;
- `Bot.keyOrder` gives, for each step, the order in which the keys of its
  statistics map are visited. `Sheets.KeyOrders` says that this order lists
  each key of the map exactly once.

In the parsing, build-reading and naming functions an exception is modelled as
a `Raised` outcome carrying its name, not as a precondition. The methods
`HeaderTable.UpdateHeaders` and `HeaderTable.UpdateValues` are the exception;
"Left out" names their preconditions. Examples are the `IndexError` of
`split(...)[1]` and
`re.findall(...)[0]`, the `TypeError` of adding a number to a text, and the
`ValueError`s of `int` and of the build checks.

## Model

| member | source | states |
|---|---|---|
| Text.SplitJoin | scripts/generate_stats.py:108 | joining the pieces of `s.split(sep)` with `sep` gives back `s` |
| Text.JoinSplitChar | scripts/generate_stats.py:219 | splitting on a one-character separator undoes joining with it when no piece holds the separator |
| Text.SplitPieces | scripts/generate_stats.py:108 | a split has two or more pieces exactly when the separator occurs, so `[1]` raises exactly when it does not |
| Text.SplitUnlines | scripts/generate_stats.py:105 | lines printed one per newline are read back by `splitlines` as the same lines |
| Text.CollapseSpec | scripts/generate_stats.py:289 | `' '.join(s.strip().split())` is in collapsed form (single spaces between non-blank text, no other whitespace) and has the same words as `s` |
| Text.JoinWords | scripts/generate_stats.py:313 | a text already in collapsed form is unchanged by the collapse |
| Text.JoinedWords | scripts/generate_stats.py:313 | splitting the single-space join of words gives back those words |
| Text.WordsStrip | scripts/generate_stats.py:289 | `split()` ignores leading and trailing whitespace |
| Text.ParseShow | scripts/generate_stats.py:228 | `int(str(n)) == n` for every integer, negative ones included |
| Text.ParseIntStrip | scripts/generate_stats.py:228 | `int` gives the same result on a text and on its stripped form |
| Text.ParseSignSpace | scripts/generate_stats.py:228 | a sign, then any whitespace, then decimal digits is read as the digits' value with that sign |
| Text.KeepAlnumAll | scripts/generate_stats.py:125 | `filter(str.isalnum, s)` leaves an alphanumeric text unchanged |
| Text.KeepAlnumAppend | scripts/generate_stats.py:131 | `filter` distributes over concatenation |
| Text.ReplaceAbsent | scripts/generate_stats.py:288 | `replace` leaves a text that has no occurrence unchanged |
| StepStats.StatLine | scripts/generate_stats.py:215-232 | a line `*RESULT:<key>:<value>` with no other `:` is read as the stripped key, `int` of the value and the stripped value |
| StepStats.IgnoredLine | scripts/generate_stats.py:216-222 | a line without the tag, or without exactly three `:`-fields after it, changes nothing wherever it stands |
| StepStats.ParseLinesSnoc | scripts/generate_stats.py:215-250 | one more line stores its statistic, or changes nothing when it has none |
| StepStats.ReadStats | scripts/generate_stats.py:214-250 | the parsing loop ends in the state the statistics of the lines give, stored in order from an empty map |
| StepStats.RecordLine | scripts/generate_stats.py:234-250 | storing one statistic: it reports a `TypeError` exactly when a number meets a text under one key, and otherwise gives the new map and list of capped keys |
| StepStats.ClashPersists | scripts/generate_stats.py:237 | once the loop raises, the remaining lines are not read |
| StepStats.ParsedKeys | scripts/generate_stats.py:225-240 | the map's keys are exactly the keys of the statistics; a key holds a number exactly when its values are integers, and that number is their sum, each counted once |
| StepStats.ClashIffMixed | scripts/generate_stats.py:234-246 | parsing raises `TypeError` exactly when some key is given both an integer and a value that is not one |
| StepStats.TextBounded | scripts/generate_stats.py:238-250 | a text value starts with the first value given for its key and, once anything is appended, stays below 50000 characters |
| StepStats.TextCell | scripts/generate_stats.py:238-250 | a key's cell holds text exactly when the reference text exists, and holds that text: the first value, then each later value after a newline while the cell stays below 50000 characters; the key is listed as capped exactly when one of its values was turned away |
| StepStats.AppendErrorsDistinct | scripts/generate_stats.py:247-250 | a key is recorded as capped at most once, and only a key holding text is |
| StepStats.ValidateStepInfo | scripts/generate_stats.py:171-184 | the map is valid exactly when it is non-empty; `ValueError` is raised exactly when a non-empty map with `Total` has a listed partial key that `int` refuses; the sum warning needs `Total`, and only warns |
| StepStats.StepInfoOf | scripts/generate_stats.py:192-254 | the result is `None` exactly after an error message or for an empty map; otherwise it is the parsed map, which is non-empty; nothing is raised after an error message |
| StepStats.GetStepInfo | scripts/generate_stats.py:192-254 | `get_step_info` computes `StepInfoOf` |
| BuildInfo.ClockAt | scripts/generate_stats.py:117 | a match of `[0-9]{1,2}:[0-9]{2}:[0-9]{2}` at an index is 7 or 8 characters long and has that shape; none starts at a non-digit |
| BuildInfo.FindClock | scripts/generate_stats.py:117 | the index found is the leftmost from the start index at which the pattern matches, and `None` means no index matches |
| BuildInfo.FirstClock | scripts/generate_stats.py:117 | the first match of the pattern has the shape of a time and occurs in the text; there is none exactly when the pattern matches nowhere |
| BuildInfo.ClockFound | scripts/generate_stats.py:115-117 | a two-digit-hour time preceded by no digit is the match found |
| BuildInfo.CreatedLineTime | scripts/generate_stats.py:112-117 | on a `Created ... at 12:26:39, ...` line the time is the one before the first comma |
| BuildInfo.ColonValue | scripts/generate_stats.py:125-131 | the value is alphanumeric; `IndexError` is raised exactly when the line has no `:` |
| BuildInfo.RevisionLine | scripts/generate_stats.py:126-131 | on a line `"revision": "<hash>",` the value read is the hash |
| BuildInfo.ReadingAgrees | scripts/generate_stats.py:112-131 | the reading of a line agrees with which markers the line holds and with the value each marked field takes from it |
| BuildInfo.SetFieldFacts | scripts/generate_stats.py:112-131 | a field's step adds that field exactly when the line holds its marker, takes the line's value, and changes no other field |
| BuildInfo.SetNameFacts | scripts/generate_stats.py:107-111 | the name step sets build name and link from the line when the name is absent, and changes nothing when it is present |
| BuildInfo.StepField | scripts/generate_stats.py:105-131 | one turn of the loop sets a marked field to the value the line gives and keeps an unmarked field as it was |
| BuildInfo.StepName | scripts/generate_stats.py:105-111 | one turn of the loop reads the build name and link from the line when they are absent, keeps them otherwise, and adds no field beyond the six it knows |
| BuildInfo.ReadLineRaises | scripts/generate_stats.py:105-131 | the only exception one line raises is `IndexError` |
| BuildInfo.RaisedPersists | scripts/generate_stats.py:105-131 | once a line raises, the remaining lines are not read |
| BuildInfo.ReadAll | scripts/generate_stats.py:104-131 | the line loop computes the fold `ReadLines` |
| BuildInfo.FieldFromLastLine | scripts/generate_stats.py:105-131 | each field holds the value of the last line holding its marker, and is absent when no line does |
| BuildInfo.NameFromFirstLine | scripts/generate_stats.py:105-111 | after at least one line the build name and link are those of the first line; no field beyond the six known is set |
| BuildInfo.GetLatestSuccessBuildInfo | scripts/generate_stats.py:89-134 | the method computes `LatestSuccessBuildInfo`: the three checks, the line loop, then the check for the build name |
| BuildInfo.BuildInfoOutcome | scripts/generate_stats.py:95-134 | `ValueError` is raised exactly for an error message or output without `SUCCESS`; any other exception is an `IndexError`; a result holds the build name and link of the first line and nothing beyond the six fields |
| BuildInfo.BuildInfoFields | scripts/generate_stats.py:112-131 | in a result each field comes from the last line holding its marker; the time has the shape of a time of day, the date is today's, and the revisions are alphanumeric |
| BuildInfo.StepNameOf | scripts/generate_stats.py:163-165 | a line gives a name exactly when it contains `Step "angle_` |
| BuildInfo.StepNameBetweenQuotes | scripts/generate_stats.py:165 | the name is the text between the line's first and second `"` (or the end of the line) |
| BuildInfo.StepNameOfStepLine | scripts/generate_stats.py:151-165 | a line starting `Step "angle_<name>"` before any other `"` gives `angle_<name>` |
| BuildInfo.StepNamesAppend | scripts/generate_stats.py:162-166 | the names of two runs of lines are the names of each, in order |
| BuildInfo.StepNamesMembers | scripts/generate_stats.py:162-166 | a name is in the result exactly when some line holding the marker gives it |
| BuildInfo.GetStepNames | scripts/generate_stats.py:140-166 | `ValueError` after an error message; otherwise the names of the marked lines in order |
| SheetNaming.CleanBotName | scripts/generate_stats.py:286-289 | the cleaned bot name is in collapsed form and has the words of the name with the tokens removed |
| SheetNaming.RemoveAbsentTokens | scripts/generate_stats.py:287-288 | a bot name holding none of the tokens loses nothing to the token loop |
| SheetNaming.AngleWord | scripts/generate_stats.py:290 | `angle\w*` matches exactly when the step name contains `angle`; the match starts with `angle`, continues with word characters only, and occurs in the name |
| SheetNaming.RulesGood | scripts/generate_stats.py:294-312 | every label is a non-empty text in collapsed form |
| SheetNaming.LabelPart | scripts/generate_stats.py:292-313 | the collapsed label text is the labels of the matched patterns joined by single spaces |
| SheetNaming.LabelsAppend | scripts/generate_stats.py:293-312 | the labels of two rule lists are those of the first list followed by those of the second, so frontend labels come before backend labels |
| SheetNaming.SheetNameParts | scripts/generate_stats.py:284-314 | the name is the frontend labels, then the backend labels, joined by single spaces, then one space and the cleaned bot name; it raises `IndexError` exactly when the step name has no `angle` |
| SheetNaming.NoLabelName | scripts/generate_stats.py:313-314 | a test name with no known frontend or backend gives a name made of a space and the cleaned bot name |
| Sheets.VisitsMember | scripts/generate_stats.py:320-321 | the nested loops visit exactly the steps of the bots |
| Sheets.CollectSpec | scripts/generate_stats.py:319-324 | collecting fails exactly when one name fails; otherwise it holds every name, one per visit and in order |
| Sheets.GetSheetNames | scripts/generate_stats.py:318-324 | `get_sheet_names` computes `SheetNamesOf` |
| Sheets.SheetNamesRaise | scripts/generate_stats.py:318-324 | `get_sheet_names` raises exactly when the name of some step of some bot cannot be formed |
| Sheets.FormatNamed | scripts/generate_stats.py:284-314 | with `format_sheet_name`, a step has a sheet name exactly when its name mentions `angle` |
| Sheets.SheetNamesNeedAngle | scripts/generate_stats.py:318-324 | with `format_sheet_name`, `get_sheet_names` raises exactly when some step name does not mention `angle` |
| Sheets.SheetExists | scripts/generate_stats.py:328-332 | a sheet exists exactly when its name is among the titles |
| Sheets.ValidateSheets | scripts/generate_stats.py:337-342 | the result is the names with no sheet, in order (`Missing`) |
| Sheets.MissingAppend | scripts/generate_stats.py:337-342 | the filter keeps the order: it distributes over concatenation |
| Sheets.MissingCount | scripts/generate_stats.py:337-342 | a name without a sheet occurs in the result as often as in the input, duplicates included; a name with a sheet does not occur |
| Sheets.MergeSpec | scripts/generate_stats.py:405-413 | merging keeps the row as a prefix and appends only columns the row lacked, each once; the result holds exactly the old columns and the demanded ones; the row is unchanged exactly when it already held every demanded column |
| Sheets.MergeAppend | scripts/generate_stats.py:405-413 | merging two column lists one after the other is merging their concatenation |
| Sheets.MergeIdempotent | scripts/generate_stats.py:405-413 | merging the same columns a second time appends nothing |
| Sheets.HeadersSnoc | scripts/generate_stats.py:401-416 | one more visit merges its columns into its sheet's header, and lists the sheet as stale exactly when that changed the header |
| Sheets.HeadersPerSheet | scripts/generate_stats.py:400-413 | each sheet's final header is its old header merged with every column the visits demanded of it, in visit order |
| Sheets.HeadersGrow | scripts/generate_stats.py:400-413 | every final header extends the old one (prefix kept, no column appended twice or already present) and holds every column any visit demanded of it |
| Sheets.StaleIff | scripts/generate_stats.py:403-416 | a sheet is among the stale ones exactly when the visits changed its header |
| Sheets.HeadersIdempotent | scripts/generate_stats.py:400-416 | a second pass of the same visits changes no header and finds nothing stale |
| Sheets.UpdatesOf | scripts/generate_stats.py:415-422 | one request per stale entry, for range `<sheet>!A1:Z`, carrying that sheet's final header |
| Sheets.TargetsHold | scripts/generate_stats.py:400-413 | every step of every bot has its demand among the visits' demands |
| Sheets.KeysInHeaders | scripts/generate_stats.py:400-413 | after `update_headers` the header of every step's sheet holds the required columns and every key of the step's statistics, given that each step's key order lists exactly those keys (`KeyOrders`) |
| Sheets.RowAligned | scripts/generate_stats.py:458-467 | a row has one value per header column, each the value for that column |
| Sheets.StatInColumn | scripts/generate_stats.py:461-467 | a column gets the build's field when it is a required column the build has, else the step's statistic when there is one, else a blank |
| Sheets.StepRowsFit | scripts/generate_stats.py:456-467 | one row per step of the bot, in order, each that step's row |
| Sheets.RowsFitHeaders | scripts/generate_stats.py:455-467 | every row goes to a sheet that has a header row, with one value per column of that header |
| Sheets.StatWritten | scripts/generate_stats.py:400-467 | after `update_headers`, every statistic of every step lies in the row of that step at the column of its key, unless the key names a required column the build fills |
| Sheets.HeaderTable.constructor | scripts/generate_stats.py:397 | the table starts from the header rows it is given |
| Sheets.HeaderTable.AppendMissing | scripts/generate_stats.py:405-413 | a column loop merges the columns into that header and changes no other; `stale` says whether it appended anything |
| Sheets.HeaderTable.HeaderVisit | scripts/generate_stats.py:403-413 | one visit merges the required columns, then the step's keys, into its sheet's header; `stale` says whether this changed the header |
| Sheets.HeaderTable.HeaderBot | scripts/generate_stats.py:401-416 | the loop over a bot's steps continues the header fold and the stale list over that bot's visits |
| Sheets.HeaderTable.HeaderRequests | scripts/generate_stats.py:415-422 | the requests for the stale sheets, built from the final headers |
| Sheets.HeaderTable.UpdateHeaders | scripts/generate_stats.py:397-422 | for steps whose statistics are known, listed in key order (`KeyOrders`), the headers become the fold of all visits over the old headers; the requests are one per visit that changed a header, each with that sheet's final header |
| Sheets.HeaderTable.ValuesOf | scripts/generate_stats.py:458-467 | the column loop builds the row `RowOf` for the header |
| Sheets.HeaderTable.ValueBot | scripts/generate_stats.py:456-467 | the loop over a bot's steps builds that bot's rows in order |
| Sheets.HeaderTable.UpdateValues | scripts/generate_stats.py:453-467 | one row per visit, in visit order, for the visit's sheet, under the current headers |
| Verbosity.LevelOfName | scripts/generate_stats.py:562-569 | each level's own name selects that level |
| Verbosity.LevelOfMostVerbose | scripts/generate_stats.py:562-571 | the level chosen is the most verbose level whose name occurs in the option text, or `INFO` when none occurs |
| Verbosity.LevelOfDefault | scripts/generate_stats.py:570-571 | option text naming no level selects `INFO` |

## Left out

- The commands `bb ls`, `bb get` and `bb log` are not run. Their captured standard output and error text are the inputs of `LatestSuccessBuildInfo`, `GetStepNames` and `StepInfoOf`.
- `urllib.quote` is a function parameter `quote`: percent-encoding lives in a library that is not part of this model.
- `datetime.datetime.now().strftime('%m/%d/%y')` is the parameter `today`: it reads the clock.
- The spreadsheet API and credentials are not modelled. This covers `get_spreadsheet`, `batch_update`, `create_sheets`, the requests of `get_headers`, `batch_update_values`, `append_values` and `get_sheets_service`. `ValidateSheets` takes the sheet titles directly. `UpdateHeaders` returns the request batch instead of sending it. `UpdateValues` returns the rows instead of appending them.
- `update_values` catches and logs any failure of `append_values`. With no API in the model, nothing fails there.
- `get_headers` is not modelled. It reads the header rows that `HeaderTable` starts from.
- `get_bot_info` and `main` are not modelled: they only compose the modelled parts and catch exceptions. A `Sheets.Bot` value stands for the per-bot map that `get_bot_info` builds.
- `main` strips and upper-cases the `--verbosity` text before `initialize_logging` sees it. `Verbosity.LevelOf` takes the text after that step.
- Logging is not modelled: its handler setup, and every warning except what decides a result. The sum warning of `validate_step_info` is the `sumWarning` flag.
- `argparse`, `os.chdir`, `exit` and `quit` are not modelled.
- Text is a sequence of characters standing for the bytes of a Python 2 `str`. The 50000 limit therefore counts bytes, as the script does.
- `int` is modelled as Python 2's `int` on a byte string in base 10: optional surrounding whitespace, an optional sign, optional whitespace after the sign, then decimal digits (`ParseSignSpace`). A `long` result is the same unbounded integer in the model.
- The two regular expressions are written out by hand (`FirstClock`, `AngleWord`). No general regular-expression engine is modelled.
- Sheets.HeaderTable.UpdateHeaders requires every visited sheet to have a header row (`Ready`), and every step to have statistics whose keys its key order lists (`KeyOrders`). For a missing header row Python raises `KeyError` instead. For a step whose `get_step_info` returned `None` it raises `AttributeError` at `.keys()`, after the earlier visits have already changed their headers. The model does not capture those raises or the partly updated headers they leave. The models of the header fold (`HeadersAfter`, `Stale`) skip a visit to a sheet without a header row.
- Sheets.HeaderTable.UpdateValues requires every visited sheet to have a header row and every step to have statistics (`Ready`, `StatsKnown`). Python raises `KeyError` for a missing header row. For an unread step, whose `get_step_info` returned `None`, it raises `TypeError` at `key in None` (line 464), once some header column is not a required column the build fills. With no such column the step gets a row without a raise. In the script that case never reaches `update_values`: `update_headers` has already raised `AttributeError` for that step.
- Sheets.Cell uses only the bot's build fields for a required column. In the script the statistics of each step share one dictionary with the build fields. So a step named like a required column replaces that field, and `update_values` then writes the step's statistics in that column. The model keeps steps and build fields apart and does not capture that name collision.
- A step named `step_names` replaces the bot's list of step names in that dictionary. The loops of `update_headers` and `update_values` then go over that step's keys, or raise `TypeError` on `None`. The model keeps `Bot.stepNames` apart and does not capture this either.
- Sheets.TargetsOf and Sheets.SheetNamesOf compute the same sheet names for the same visits. No single lemma states that the names `update_headers` writes to are the list `get_sheet_names` returns.
- `src/libANGLE/validationES2.h` is not part of this model. Its functions only delegate to validation code that is not shown.

## Notes on the script's behaviour

- A number and a text given under one key make Python raise `TypeError` (when an integer meets a text) in the loop of `get_step_info`. The model keeps that exception (`ParseState.Clash`) rather than excluding it.
- When the map has `Total`, `validate_step_info` converts the listed partial counts with `int`. A text count such as `Passed: many` then makes it raise `ValueError`, which reaches the caller of `get_step_info` (`ValidateStepInfo`).
- `format_sheet_name` gives a name starting with a space when the test name mentions no known frontend or backend (`NoLabelName`).
- There is no check that a step name starts with `angle_` beyond the marker test: `get_step_names` takes whatever lies between the quotes of a marked line.
