# qimba core, modelled in Dafny

qimba is a command-line toolkit for amplicon sequencing runs. This project models its core
logic and proves properties of the model:

- the **sample sheet** (`qimba/formats.py`). It is an insertion-ordered registry of samples:
  each has an id, a forward read file, an optional reverse read file and free-form attributes.
  The model covers adding, removing and looking up samples, loading a sheet from a TSV table,
  saving it, showing it as text, and sorting it.
- the **directory pairing** of `qimba make-mapping` (`qimba/commands/make_mapping.py`).
  `process_filename` classifies a file name. The scan loop pairs forward and reverse files
  per sample and collects duplicate and missing-forward errors. `write_mapping` renders the
  mapping rows in ascending id order.
- the **job runner** and the legacy **mapping** (`qimba/core.py`). `Job.run` checks the inputs,
  creates the log directories, appends a header to each log, runs the process, checks the exit
  code and then the outputs, and always closes its log handles. `Mapping` is the stricter
  mapping-file reader and its lookups.
- the **DADA2 splitter** (`qimba/commands/dada2_split.py`). `validate_tsv` checks the table.
  The `cli` loop totals each sequence's counts and renames sequences to `ASV{idx}`.
  `write_fasta` and `write_tsv` produce the two outputs.
- the **TSV shape checker** `check_tsv` (`qimba/commands/check_tab.py`): the row count, the
  first row's width, a width histogram, and a strict mode.
- the **FASTA reader** `parse_fasta` (`qimba/utils.py`): a line-driven state machine that yields
  `(id, comment, sequence)` records.

Modules follow the source files:

| module | file |
|---|---|
| `Formats` | `formats.dfy` |
| `MakeMapping` | `make_mapping.dfy` |
| `Core` | `core.dfy` |
| `Dada2Split` | `dada2_split.dfy` |
| `CheckTab` | `check_tab.dfy` |
| `Fasta` | `fasta.dfy` |

Two supporting modules hold what those files borrow from Python's standard library:

- `Text` (`text.dfy`): `str.strip`, `split`, `replace`, `find`, `join`, `isdigit`, `lower`,
  `str(int)`/`int(str)`, and `Path.name`/`Path.parent`.
- `Sorting` (`sorting.dfy`): string ordering and a stable `sorted`.

`Wrappers` (`wrappers.dfy`) holds `Option`, `Result` and `Outcome`.

Code that changes state step by step is imperative Dafny. Each method is proved against a
function that specifies it:

- `SampleSheet`, `Job`, `Mapping` and the file system `Job.run` touches are classes whose methods
  modify their fields.
- The loops of `load_from_file`, `save_to_file`, `__str__`, `sort`, the pairing scan,
  `write_mapping`, `_validate_inputs`, `_load_mapping`, `validate_tsv`, the count loop,
  `write_fasta`, `check_tsv` and `parse_fasta` are `while` loops. Their invariants tie the
  state so far to a fold over the prefix read.

TSV input is taken as rows already split by the csv reader, with a blank line as the empty row.
The file system, the process and the clock are parameters.

Some behaviours of the code worth knowing, modelled as written:

- `--strip` removes every occurrence of the string, since it is applied with `str.replace`
  (`Text.RemoveAllRemovesEveryOccurrence`).
- The pairing loop collects all duplicate and missing-forward errors and reports them together.
- `SampleSheet.load_from_file` looks columns up by their stripped names. It then drops the id
  column from the attributes by comparing with the unstripped first header. So with a first
  header such as `" ID "`, the id column also becomes an attribute named `ID`.
- In `dada2-split`, a blank data row still uses up an `idx`. After a blank row, the names in the
  simplified table stop matching the FASTA numbering (`Dada2Split.SimplifiedAt`, `Dada2Split.BlankRowSkipsAnIndex`).

## Model

| member | source | states |
|---|---|---|
| Formats.RemoveKeepsOthers | qimba/formats.py:202-206 | deleting one sample's entry keeps every other id, in order, still distinct, and drops that id |
| Formats.Sample.GetAttr | qimba/formats.py:30-32 | `get_attr`: the attribute's value, or `None` when the sample lacks it; `Cell`, `IdsWithAttrExact` and `GetSampleAttr` state what follows from it |
| Formats.Sample.Line | qimba/formats.py:25-28 | `str(sample)`: id, forward file and reverse file or `''`, tab-joined; `SampleLineFields` splits it back |
| Formats.SampleSheet.GetSamplesByAttr | qimba/formats.py:86-100 | the sheet's `get_samples_by_attr`, over its samples in order; its contents and order are `IdsWithAttrExact` and `IdsWithAttrOrder` |
| Formats.IdsWithAttrExact | qimba/formats.py:86-100 | `get_samples_by_attr` lists an id exactly when one of its samples has that attribute equal to the value; no more ids than samples |
| Formats.IdsWithAttrOrder | qimba/formats.py:97-100 | the listed ids follow the order of their samples in the sheet, and with distinct ids each is listed once |
| Formats.ColumnIndex | qimba/formats.py:136 | the header index maps each stripped name to a column holding that name; with repeated names, the last column wins |
| Formats.ColumnIndexCovers | qimba/formats.py:135-141 | once neither `Forward` nor `Reverse` is missing, the index names both and only real columns |
| Formats.RowSample | qimba/formats.py:150-164 | the sample a right-width row describes: stripped id, forward cell, reverse cell or `None` when blank, and the attribute cells; `RowSampleShape` and `RowSampleOfCells` state its properties |
| Formats.ReadRow | qimba/formats.py:145-166 | one turn of the row loop: a wrong width raises, a blank id is skipped, a repeated id raises, else the sample is appended; `ReadRowErrors` and `ReadRowShape` state its properties |
| Formats.LoadRows | qimba/formats.py:144-166 | the row loop as a fold, the row at index k being line k+2; `LoadRowsNext`, `LoadRowsStops` and `LoadRowsShape` state its properties |
| Formats.Load | qimba/formats.py:116-168 | `load_from_file` on the table: an empty file, a blank first header or a missing required column raises, else the rows are read; `LoadShape` and `SaveLoadRoundTrip` state its properties |
| Formats.LoadRowsNext | qimba/formats.py:144-166 | reading one more data row is the row step applied to the samples read so far, with the row on line k+2 |
| Formats.LoadRowsStops | qimba/formats.py:144-148 | once a prefix of the rows raises, the whole load raises the same error |
| Formats.RowSampleShape | qimba/formats.py:150-164 | a data row with a non-blank id gives a trimmed non-blank id, no blank reverse, and no `Forward`, `Reverse` or first-header attribute |
| Formats.ReadRowShape | qimba/formats.py:144-166 | reading a row keeps the ids distinct and every sample as loading leaves it |
| Formats.AppendShape | qimba/formats.py:58-65 | appending a well-formed sample under a new id keeps the ids distinct |
| Formats.LoadRowsShape | qimba/formats.py:144-166 | a successful load holds distinct ids, at most one sample per data row, each as loading leaves it |
| Formats.ReadRowErrors | qimba/formats.py:145-148 | a row of the wrong width raises with its line, the header's width and its own; a right-width row raises only for a repeated id |
| Formats.LoadRowsOkWidth | qimba/formats.py:145-148 | a load that succeeds had every data row at the header's width |
| Formats.LoadRowsErrWidth | qimba/formats.py:144-148 | a failed load is a repeated id, or names the first row of the wrong width by its line, counting the header as line 1 |
| Formats.LoadShape | qimba/formats.py:116-168 | a loaded sheet takes the first row as its columns and holds distinct, well-formed samples |
| Formats.Saved | qimba/formats.py:185-200 | `save_to_file` writes the column row, then one row per sample |
| Formats.Cell | qimba/formats.py:190-198 | the cell written under a column after the first: forward, reverse or `''`, else the attribute or `''`; `RowOfCells` states it per column |
| Formats.RowOf | qimba/formats.py:188-199 | a sample's row: its id, then one cell per column after the first; `RowOfCells` states its width and cells |
| Formats.TextLines | qimba/formats.py:248-270 | `str(sheet)` has one line for the header and one per sample |
| Formats.RowOfCells | qimba/formats.py:188-200 | every written row has one cell per column: the id first, then forward, reverse or `''`, or the attribute or `''` |
| Formats.TextShowsSaved | qimba/formats.py:248-270 | `str(sheet)` shows, tab-joined, the rows `save_to_file` writes; without columns it uses the `SampleID`/`Forward`/`Reverse` header |
| Formats.DefaultRow | qimba/formats.py:264-269 | under the fixed three-column header, a row is the id, the forward file and the reverse file or `''` |
| Formats.SampleLineFields | qimba/formats.py:25-28 | `str(sample)` splits back on tabs into id, forward and reverse when none holds a tab |
| Formats.ColumnIndexDistinct | qimba/formats.py:136 | with no repeated name, each name maps to its own column |
| Formats.ColumnIndexOfSavable | qimba/formats.py:136-164 | with trimmed names, repeated or not, every name maps to a column carrying it, and the attributes read are the names other than the first header and the two required ones |
| Formats.AttributesOfRow | qimba/formats.py:161-164 | the attribute cells of a written row read back as the sample's attributes |
| Formats.RowSampleOfRow | qimba/formats.py:150-164 | a written row reads back as the sample it was written from |
| Formats.RowSampleOfCells | qimba/formats.py:150-164 | a row holding a sample's cells reads back as that sample, whichever column of a repeated name the index picks |
| Formats.LoadRowsEach | qimba/formats.py:144-166 | rows that each read as one more sample load as exactly those samples |
| Formats.ReadSavedRow | qimba/formats.py:144-166 | the row written for the k-th sample reads back as that sample, after the ones before it |
| Formats.ReadRowNew | qimba/formats.py:150-166 | the row of a sample that reloads, read under a new id, appends that sample |
| Formats.LoadRowsOfSaved | qimba/formats.py:188-200 | the data rows written for distinct reloadable samples load back as those samples |
| Formats.SaveLoadRoundTrip | qimba/formats.py:170-200 | loading what `save_to_file` wrote gives back the same columns and samples, in order, when names and ids are trimmed and ids distinct; column names may repeat |
| Formats.SaveLoadRepeatedColumn | qimba/formats.py:185-200 | a header `ID, Forward, Reverse, X, X` round-trips: the attribute is written under both `X` columns and read back from the last |
| Formats.LoadOfRows | qimba/formats.py:123-141 | a table whose header passes the checks loads as its header plus what its data rows load as |
| Formats.ParseSortKey | qimba/formats.py:217-222 | `SortBy(by.lower())`: `sample_id` or `forward_read` in any case, else an error naming the criterion; `ParseSortKeyIgnoresCase` states this |
| Formats.LowerIdempotent | qimba/formats.py:219 | lower-casing twice is lower-casing once, so the criterion read is case-insensitive |
| Formats.SortedSamples | qimba/formats.py:224-228 | `sorted` by id or by forward file; `SortedSamplesSpec` states what it keeps |
| Formats.ParseSortKeyIgnoresCase | qimba/formats.py:217-222 | the criterion is read case-insensitively; only `sample_id` and `forward_read` are accepted, anything else raises naming it |
| Formats.DistinctIdsPermutation | qimba/formats.py:233-236 | reordering samples with distinct ids keeps them distinct, so re-adding them cannot raise |
| Formats.SortedSamplesSpec | qimba/formats.py:224-228 | sorting keeps exactly the same samples, in ascending key order, keeps ids distinct, and sorting twice is sorting once |
| Formats.SampleSheet.constructor | qimba/formats.py:38-41 | a new sheet has no samples and no columns |
| Formats.SampleSheet.AddSample | qimba/formats.py:43-65 | a known id raises and leaves the sheet unchanged; otherwise the sample goes last and the length grows by one |
| Formats.SampleSheet.RemoveSample | qimba/formats.py:202-206 | an unknown id raises `KeyError`; otherwise only that sample goes, the rest keep their order |
| Formats.SampleSheet.GetSample | qimba/formats.py:208-212 | the sample with that id, or `KeyError` exactly when the id is unknown |
| Formats.SampleSheet.GetSampleAttr | qimba/formats.py:67-84 | `KeyError` exactly for an unknown sample; `None` exactly when a known sample lacks the attribute |
| Formats.SampleSheet.LoadFromFile | qimba/formats.py:102-168 | a new sheet with the columns and samples the load specification reads, or exactly its error |
| Formats.SampleSheet.LoadRow | qimba/formats.py:144-166 | one data row read into the sheet: the new samples, or the error, are the row step's |
| Formats.SampleSheet.SaveRows | qimba/formats.py:170-200 | the rows written are the column row and one row per sample, in sheet order |
| Formats.SampleSheet.ToText | qimba/formats.py:248-270 | the text is the newline-joined lines of `str(sheet)` |
| Formats.SampleSheet.Sort | qimba/formats.py:214-238 | a new sheet with the same columns and the samples sorted by the key; an unknown criterion raises; this sheet is unchanged |
| MakeMapping.Stem | qimba/commands/make_mapping.py:49 | the basename minus the extension's length; empty for an empty or over-long extension (negative-end slice) |
| MakeMapping.SampleName | qimba/commands/make_mapping.py:48-53 | the stem with every occurrence of the strip string removed when one is given; `ProcessFilenameForward` and `ProcessFilenameReverse` split it |
| MakeMapping.ProcessFilename | qimba/commands/make_mapping.py:44-46 | a path without the extension is `(None, False)` |
| MakeMapping.ProcessFilenameRaises | qimba/commands/make_mapping.py:52-59 | it raises exactly when the extension matches and the tag it splits on is empty |
| MakeMapping.ProcessFilenameForward | qimba/commands/make_mapping.py:55-57 | a forward match is the name up to the first occurrence of the forward tag: the tag follows it, does not occur in it, and does not start at any earlier position |
| MakeMapping.ProcessFilenameReverse | qimba/commands/make_mapping.py:58-59 | a reverse match has no forward tag in the name, and is the name up to the first occurrence of the reverse tag: the tag follows it and does not start at any earlier position |
| MakeMapping.ProcessFilenameUnmatched | qimba/commands/make_mapping.py:55-61 | a file with the extension is unmatched exactly when neither tag occurs in its name (an empty tag occurs in every name) |
| MakeMapping.Match | qimba/commands/make_mapping.py:119-126 | only files whose name gives a non-empty sample count |
| MakeMapping.PairsRaised | qimba/commands/make_mapping.py:118-124 | once a file name raises, the scan raises that and looks at nothing after it |
| MakeMapping.Scan | qimba/commands/make_mapping.py:118-137 | the scan loop, over the `samples` dict and `errors` list, computes the pairing specification |
| MakeMapping.Pairs | qimba/commands/make_mapping.py:118-137 | the scan as a fold over the entries: a raised name stops it, a match is placed, anything else is skipped; `PairsKeepsFirst`, `PairsCountsDuplicates` and `PairsRaised` state its properties |
| MakeMapping.Place | qimba/commands/make_mapping.py:126-137 | one matched file placed: its slot filled if free, else one duplicate error naming the kept file; `PlaceDuplicates` states it |
| MakeMapping.AddFile | qimba/commands/make_mapping.py:126-137 | one matched file: kept if its slot is free, otherwise one duplicate error |
| MakeMapping.PairsStep | qimba/commands/make_mapping.py:118-137 | a scan is the scan of all but the last entry, then that entry placed |
| MakeMapping.PairsWellFormed | qimba/commands/make_mapping.py:114-137 | the dict's keys are listed once each in insertion order, and `''` is never one |
| MakeMapping.PairsKeepsFirst | qimba/commands/make_mapping.py:129-137 | for every sample and direction, the file kept is the first matched; a sample is present exactly when some file matched it |
| MakeMapping.PairsDuplicatesNameKept | qimba/commands/make_mapping.py:130-135 | every scan error is a duplicate naming the file kept for that sample and direction, and as the new file one that matched the same sample and direction after the kept file |
| MakeMapping.PairsErrorsExact | qimba/commands/make_mapping.py:129-137 | when no name raises, the scan's errors are exactly `LaterMatches`: one per file matched after the first of its sample and direction, in scan order |
| MakeMapping.LaterMatchesFound | qimba/commands/make_mapping.py:130-135 | each of those errors names, as the new file, an entry that matched its sample and direction, and as the existing file the first such entry before it |
| MakeMapping.PairsCountsDuplicates | qimba/commands/make_mapping.py:129-137 | each file matched after the first of its sample and direction adds exactly one duplicate error |
| MakeMapping.SlotTaken | qimba/commands/make_mapping.py:130-137 | a slot is filled exactly when some file matched that sample and direction |
| MakeMapping.PlaceDuplicates | qimba/commands/make_mapping.py:129-137 | placing a file adds a duplicate error exactly when its slot is already taken |
| MakeMapping.MissingForwards | qimba/commands/make_mapping.py:140-142 | the validation loop yields only missing-forward errors |
| MakeMapping.MissingForwardsExact | qimba/commands/make_mapping.py:139-142 | a sample gets exactly one missing-forward error when it has no forward file, none otherwise; a missing reverse is no error |
| MakeMapping.WriteMapping | qimba/commands/make_mapping.py:63-83 | the loop writes the header and the sorted sample rows |
| MakeMapping.MappingRows | qimba/commands/make_mapping.py:70-83 | the rows `write_mapping` writes; `MappingRowsSpec` states them |
| MakeMapping.MappingRowsSpec | qimba/commands/make_mapping.py:70-83 | header `Sample ID`/`Forward`/`Reverse`, then every sample once, in ascending id order, with its files or `''` |
| MakeMapping.SortedIdsIn | qimba/commands/make_mapping.py:73 | the sorted ids are a permutation of the dict's keys |
| MakeMapping.MakeMapping | qimba/commands/make_mapping.py:113-157 | a raised classification aborts; otherwise all errors are reported together, no samples fails, else the mapping rows are written |
| Core.FileSystem.constructor | qimba/core.py:168 | a file system with the given files, no handles and nothing spawned |
| Core.FileSystem.MakeDirs | qimba/core.py:69 | `mkdir(exist_ok=True)` adds the directory |
| Core.FileSystem.Open | qimba/core.py:104 | `open(p, 'a')` creates the file if absent, keeps its text and holds a handle |
| Core.FileSystem.Write | qimba/core.py:79 | a write through an append handle adds the text at the end |
| Core.FileSystem.Close | qimba/core.py:134 | closing gives back one handle |
| Core.FileSystem.Launch | qimba/core.py:117-124 | the process's stderr and stdout go to their logs' handles; the files it creates exist |
| Core.FirstMissing | qimba/core.py:49-63 | no path is reported exactly when all exist; a reported path is listed and missing |
| Core.FirstMissingAt | qimba/core.py:51-55 | the path reported is the first missing one: every path before it exists |
| Core.Repeat | qimba/core.py:74 | `'=' * 80` is 80 copies of `=` |
| Core.Header | qimba/core.py:74 | the log header: a newline, 80 `=`, the timestamp, `Command: ` and the space-joined command, 80 `=`; `RunWritesHeader` states where it goes |
| Core.ContentAppend | qimba/core.py:79 | appending changes only that file's text, by adding to its end |
| Core.WriteOnceContent | qimba/core.py:76-79 | `with open(p, 'a')` plus one write appends to that file only and loses no file |
| Core.Job.constructor | qimba/core.py:13-47 | a string command goes through the splitter and a list is kept; absent input and output lists become empty |
| Core.Job.StrSplitsBack | qimba/core.py:138-140 | `str(job)` splits on spaces back into the command when no argument holds a space |
| Core.Job.Str | qimba/core.py:138-140 | `str(job)` is the space-joined command; `StrSplitsBack` states it splits back |
| Core.Job.FindMissing | qimba/core.py:51-55 | the validation loop finds the first path that does not exist |
| Core.Job.ValidateInputs | qimba/core.py:49-55 | passes exactly when every input exists; otherwise `FileNotFoundError` for the first missing one |
| Core.Job.ValidateOutputs | qimba/core.py:57-63 | passes exactly when every output exists; otherwise `RuntimeError` for the first missing one |
| Core.Job.EnsureLogDirs | qimba/core.py:65-69 | the directory of each configured log exists |
| Core.Job.OpenLogs | qimba/core.py:103-110 | one append handle per configured log, the log file created |
| Core.Job.WriteCommandToLogs | qimba/core.py:71-79 | each configured log gets the header appended; the held handles are unchanged |
| Core.Job.CloseLogs | qimba/core.py:131-136 | the handles `run` opened are closed |
| Core.Job.Run | qimba/core.py:81-136 | outcome and resulting file system are the run specification's, step by step |
| Core.Job.RunSpec | qimba/core.py:81-136 | `run` step by step over the file system: a missing input raises with nothing changed, else directories, logs, headers, the process and the close; `RunInputMissing`, `RunEffects`, `RunAppendsOnly` and `RunWritesHeader` state its properties |
| Core.Job.RunResult | qimba/core.py:117-129 | the outcome after the process ran: `check` with a non-zero exit raises, else a missing output raises, else the result; `RunOutcome` states it |
| Core.Job.OpenedContent | qimba/core.py:65-110 | creating directories and opening logs changes no file's text |
| Core.Job.WroteContent | qimba/core.py:71-79 | writing headers adds one header per log naming a file, to that file only |
| Core.Job.SpawnContent | qimba/core.py:117-124 | the process adds its stderr and stdout to their logs only |
| Core.Job.ClosedSteps | qimba/core.py:131-136 | closing leaves exactly the handles held before `run` |
| Core.Job.RanContent | qimba/core.py:71-124 | up to the close, each file's text grows by its headers, then what the process printed to it |
| Core.Job.RunInputMissing | qimba/core.py:49-55 | with a missing input, `run` raises for the first one and changes nothing: no directory, log or process |
| Core.Job.RunEffects | qimba/core.py:96-136 | with all inputs present: one process spawned, every handle closed, the new files are the logs, their directories and what the process made |
| Core.Job.RunAppendsOnly | qimba/core.py:71-136 | no file is truncated: every old text is a prefix of the new |
| Core.Job.RunWritesHeader | qimba/core.py:71-79 | each configured log's new text is its old text, then the `=`-ruled header of timestamp and command, then what the process printed to it (the header again first when both streams share the log) |
| Core.Job.RunOutcome | qimba/core.py:117-129 | with `check` a non-zero exit raises `CalledProcessError` unchecked; otherwise outputs are checked, the first missing one raising `RuntimeError`, and the result captures only streams without a log |
| Core.ColumnKeys | qimba/core.py:185 | the column index's keys are exactly the header names |
| Core.RequiredIndexed | qimba/core.py:178-185 | a header with `Sample ID`, `Forward` and `Reverse` gives an index over exactly its columns |
| Core.ReadMappingRow | qimba/core.py:189-218 | one turn of the row loop: width, repeated id, missing forward and missing reverse raise in that order, else the row is stored |
| Core.MappingRows | qimba/core.py:188-218 | the row loop as a fold, the row at index k being line k+2; `MappingRowsNext`, `MappingRowsStop`, `MappingRowsShape`, `MappingRowsData`, `MappingRowsWidthError` and `MappingRowsRowError` state its properties |
| Core.LoadMapping | qimba/core.py:166-218 | `_load_mapping` on the table: the header checks, then the rows; `LoadMappingShape` states its properties |
| Core.MappingRowsShape | qimba/core.py:188-218 | a load that succeeds has one sample per row, in order, ids distinct, dicts over all columns, read files existing |
| Core.MappingRowsWidthError | qimba/core.py:189-193 | a width error names the first row of the wrong width by line, header = 1, with the expected and actual counts |
| Core.MappingRowsData | qimba/core.py:196-218 | a load that succeeds stores, for each data row, exactly that row's cells under every column name, keyed by the row's own id |
| Core.MappingRowsRowError | qimba/core.py:189-215 | a failed load fails on one row with the rows before it loaded: a width error on that row's line, a duplicate naming its already loaded id, a missing forward file naming its new id and non-existent forward cell, a missing reverse file naming its new id, an existing forward cell and its non-existent reverse cell |
| Core.LoadMappingShape | qimba/core.py:166-218 | a loaded mapping keeps the header, has the required columns, every row is at the header's width, the i-th sample's dict is exactly the i-th data row's cells, and its read files exist |
| Core.MatchingIds | qimba/core.py:239-253 | exactly the ids whose dict maps the attribute to the value; each once when the ids are distinct |
| Core.MatchingIdsOrder | qimba/core.py:250-253 | the listed ids follow the iteration order of the samples |
| Core.DistinctCard | qimba/core.py:259-261 | distinct ids are as many as the dict's keys |
| Core.Mapping.constructor | qimba/core.py:160-162 | an empty mapping |
| Core.Mapping.Open | qimba/core.py:150-164 | a new mapping holding what the load reads, or exactly the error it raises |
| Core.Mapping.LoadRows | qimba/core.py:166-218 | the header checks, then the row loop: the table read, or the first error |
| Core.Mapping.AddRow | qimba/core.py:189-218 | one row: the width, duplicate-id, forward and reverse checks in order, then the sample stored |
| Core.Mapping.GetSampleAttr | qimba/core.py:220-237 | `KeyError` exactly for an unknown id; `None` exactly for a column the sample lacks |
| Core.Mapping.SelectById | qimba/core.py:239-253 | selecting on `Sample ID` finds exactly that sample |
| Core.Mapping.GetItem | qimba/core.py:263-265 | the sample's whole dict, or `KeyError` exactly for an unknown id |
| Core.Mapping.GetSamplesByAttr | qimba/core.py:239-253 | `get_samples_by_attr` over the mapping's samples in order; `MatchingIds` and `MatchingIdsOrder` state it |
| Core.Mapping.Contains | qimba/core.py:267-269 | `sample_id in mapping` exactly for a loaded id |
| Core.Mapping.Ids | qimba/core.py:255-257 | iteration yields the sample ids in load order; `LenIsCount` states each comes once |
| Core.Mapping.Len | qimba/core.py:259-261 | the length is the number of distinct samples |
| Core.Mapping.LenIsCount | qimba/core.py:255-261 | iteration lists each sample once |
| Core.MappingRowsNext | qimba/core.py:188-218 | one more row is the load so far, then that row on its line |
| Core.MappingRowsStop | qimba/core.py:188-218 | once a prefix of the rows fails, the whole load fails the same way |
| Dada2Split.FirstBadCount | qimba/commands/dada2_split.py:76-81 | the first count cell that is neither empty nor digits; none exactly when all are counts |
| Dada2Split.Shown | qimba/commands/dada2_split.py:72 | `sequence[:50]` is a prefix of at most 50 characters, all of a short sequence |
| Dada2Split.RowError | qimba/commands/dada2_split.py:62-81 | no error exactly for a good row; a width error exactly when the width differs; a sequence error exactly when the width is right and the first cell is no sequence, showing its first 50 characters; a count error only for a right-width row with a good sequence, naming the first cell `int` rejects and its column |
| Dada2Split.FirstBadRow | qimba/commands/dada2_split.py:57-81 | the first rejected data row, every one before it accepted |
| Dada2Split.Firsts | qimba/commands/dada2_split.py:83 | no more sequences than rows |
| Dada2Split.ValidateTsv | qimba/commands/dada2_split.py:28-91 | the validation loop computes the validation specification |
| Dada2Split.Validate | qimba/commands/dada2_split.py:28-91 | `validate_tsv` on the table: empty file, too few columns, the first bad row, or no sequence; `ValidateOk` and `ValidateRowFault` state its properties |
| Dada2Split.FirstsOfAcceptable | qimba/commands/dada2_split.py:68-83 | every collected sequence is a valid sequence |
| Dada2Split.ValidateOk | qimba/commands/dada2_split.py:43-88 | succeeds exactly for a header of at least 2 columns, only acceptable rows and at least one sequence; returns the header and the non-blank first cells |
| Dada2Split.ValidateRowFault | qimba/commands/dada2_split.py:56-81 | a rejected row's line counts the header and blank rows; every row before it is accepted |
| Dada2Split.AsvName | qimba/commands/dada2_split.py:165 | `ASV{idx}` starts with `ASV` and holds no whitespace |
| Dada2Split.Simplified | qimba/commands/dada2_split.py:154-165 | one simplified row per non-blank row; `SimplifiedAt` states what each is |
| Dada2Split.Tally | qimba/commands/dada2_split.py:153-171 | the loop computes the totals and simplified rows, or fails at the first row `int` rejects |
| Dada2Split.Totals | qimba/commands/dada2_split.py:153-162 | `seq_counts` after the loop: each sequence mapped to the sum of its last row's counts; `TotalsKeys` and `TotalsLast` state it |
| Dada2Split.TotalsKeys | qimba/commands/dada2_split.py:160-162 | the sequences counted are exactly those of the non-blank rows |
| Dada2Split.TotalsLast | qimba/commands/dada2_split.py:160-162 | a sequence's total is that of the last row holding it |
| Dada2Split.SimplifiedNoBlanks | qimba/commands/dada2_split.py:156-165 | without blank rows, the i-th row is renamed `ASV{i+1}` and keeps its count cells verbatim |
| Dada2Split.FirstsNoBlanks | qimba/commands/dada2_split.py:57-83 | without blank rows there is one sequence per row |
| Dada2Split.BlankRowSkipsAnIndex | qimba/commands/dada2_split.py:156-165 | an instance of `SimplifiedAt`: after a blank row the simplified table skips an ASV number |
| Dada2Split.SimplifiedAt | qimba/commands/dada2_split.py:154-165 | for any rows, the non-blank row at index `k` becomes `ASV{k+1}` with its count cells, at the position counting the non-blank rows before it, where the sequence list holds its sequence |
| Dada2Split.FastaLines | qimba/commands/dada2_split.py:97-99 | two lines per sequence: `>ASV{i} counts={total}`, then the sequence |
| Dada2Split.WriteFasta | qimba/commands/dada2_split.py:93-101 | the loop writes exactly those lines |
| Dada2Split.AsvRecords | qimba/commands/dada2_split.py:97-99 | one record per sequence |
| Dada2Split.SequenceLine | qimba/commands/dada2_split.py:99 | a sequence line is one piece for the FASTA reader |
| Dada2Split.HeaderLine | qimba/commands/dada2_split.py:98 | a `>name tail` header is already stripped and is a header line |
| Dada2Split.ParseAppendEntry | qimba/commands/dada2_split.py:97-99 | one more header and sequence add one record |
| Dada2Split.FastaHeaderParts | qimba/commands/dada2_split.py:98 | the header is `>`, the ASV name, a space and `counts={total}` |
| Dada2Split.HeaderEntry | qimba/commands/dada2_split.py:98 | the header reads back as name `ASV{idx}` and comment `counts={total}` |
| Dada2Split.FastaStep | qimba/commands/dada2_split.py:97-99 | the last entry written reads back as one more record |
| Dada2Split.FastaRoundTrip | qimba/commands/dada2_split.py:93-101 | reading back what `write_fasta` wrote gives one record per sequence, in order, with its name, comment and sequence |
| Dada2Split.Split | qimba/commands/dada2_split.py:119-187 | fails exactly as validation does; otherwise writes the FASTA lines and the header plus simplified rows |
| Dada2Split.SplitFastaReadsBack | qimba/commands/dada2_split.py:141-180 | the FASTA `cli` writes reads back without failure, one record per validated sequence |
| CheckTab.TotalRemove | qimba/commands/check_tab.py:29 | the histogram's sum does not depend on which key is taken out first |
| CheckTab.TotalUpdate | qimba/commands/check_tab.py:29 | replacing one count changes the sum by that count only |
| CheckTab.CountWidthAbsent | qimba/commands/check_tab.py:29 | a width that never occurs counts zero rows |
| CheckTab.HistogramStep | qimba/commands/check_tab.py:25-29 | one more row adds one to its width's count and leaves every other count alone |
| CheckTab.HistogramKeys | qimba/commands/check_tab.py:20-29 | the histogram's keys are exactly the widths that occur |
| CheckTab.HistogramTotal | qimba/commands/check_tab.py:20-41 | the histogram's counts add up to the number of rows |
| CheckTab.TotalBump | qimba/commands/check_tab.py:29 | `get(w, 0) + 1` adds one to the sum |
| CheckTab.TotalBumpKnown | qimba/commands/check_tab.py:29 | bumping a known width adds one to the sum |
| CheckTab.TotalBumpNew | qimba/commands/check_tab.py:29 | a new width with count one adds one to the sum |
| CheckTab.CheckTsv | qimba/commands/check_tab.py:6-43 | row count, first width or 0, the histogram; non-strict never raises; strict raises at the first differing row, 1-based, with both widths |
| CheckTab.StrictSingleWidth | qimba/commands/check_tab.py:29-39 | when every row has the first row's width, the histogram has at most one key |
| Fasta.HeaderOf | qimba/utils.py:27-29 | a header text ending in a non-space gives a non-empty id without whitespace |
| Fasta.HeaderOfWords | qimba/utils.py:27-29 | `>id comment` splits into that id and comment |
| Fasta.BareHeader | qimba/utils.py:27-28 | after a stripped `>`, there is no token exactly when nothing follows |
| Fasta.KindsAppend | qimba/utils.py:16-32 | each line is classified on its own |
| Fasta.RecordsAppend | qimba/utils.py:24 | records are built one per raw record |
| Fasta.ParseFasta | qimba/utils.py:1-38 | the generator loop yields what the parse specification yields, and fails where it fails |
| Fasta.Parse | qimba/utils.py:1-38 | `parse_fasta` on the lines: the records yielded, and the failing line if any; `ParseCount`, `ParseOneRecord`, `ParseSkipsPreamble` and `ParseFailure` state its properties |
| Fasta.Feed | qimba/utils.py:16-32 | the loop over classified lines as a fold, numbering lines from a start index; `FeedAppend`, `FeedCounts` and `FeedFails` state its properties |
| Fasta.LineKind | qimba/utils.py:17-21 | the loop body's view of a line is its classification; the line it works on is stripped |
| Fasta.FeedStep | qimba/utils.py:16-32 | one turn of the loop: a bare `>` fails on that line; anything else moves the state on |
| Fasta.YieldCurrent | qimba/utils.py:23-24 | the yield of the record in progress, if any |
| Fasta.ReadHeader | qimba/utils.py:27-29 | no token exactly for a bare `>`; otherwise the id and comment |
| Fasta.PiecesBody | qimba/utils.py:31-32 | the pieces of header-free lines are their stripped non-blank forms |
| Fasta.HeadsCount | qimba/utils.py:21 | the header lines are counted by their kinds |
| Fasta.FeedAppend | qimba/utils.py:16-32 | feeding two stretches is feeding the first, then the second from where it stopped |
| Fasta.FeedBody | qimba/utils.py:31-32 | lines without a header only add pieces to the current sequence |
| Fasta.FeedCounts | qimba/utils.py:21-30 | without a failing header, one record is completed per header line |
| Fasta.ParseCount | qimba/utils.py:21-36 | a file that parses without failure yields exactly one record per header line, the last included |
| Fasta.ParseOneRecord | qimba/utils.py:21-36 | a header followed by header-free lines yields one record: its id, its comment and the joined pieces |
| Fasta.RecordShape | qimba/utils.py:24-28 | a record's id is a non-empty word and its sequence the concatenated pieces |
| Fasta.FeedAt | qimba/utils.py:16 | the starting index only numbers the failing line |
| Fasta.FeedDone | qimba/utils.py:24 | records already yielded stay in front of everything yielded later |
| Fasta.FeedFromHeader | qimba/utils.py:21-30 | from a header line on, what came before contributes only the records it completed |
| Fasta.ParseSkipsPreamble | qimba/utils.py:23 | lines before the first header are discarded |
| Fasta.ParseConcat | qimba/utils.py:21-36 | records of consecutive stretches, the second starting at a header, are concatenated |
| Fasta.FeedFails | qimba/utils.py:27-28 | a failing header stops the generator; what was yielded is what the lines before it yield |
| Fasta.ParseFailure | qimba/utils.py:27-28 | a bare `>` line is where parsing fails; the records the lines before it yield are kept, and those lines parse without failure |
| Fasta.BareLine | qimba/utils.py:27-28 | the failing line strips to `>` |
| Text.LStrip | qimba/utils.py:17 | leading whitespace dropped, the rest kept |
| Text.RStrip | qimba/utils.py:17 | trailing whitespace dropped, the rest kept |
| Text.Strip | qimba/utils.py:17 | `str.strip()` is the left strip then the right strip; `StripTrimmed` and `StripIdempotent` state its properties |
| Text.BlankIffStripEmpty | qimba/formats.py:132 | `not s.strip()` exactly for blank strings |
| Text.StripTrimmed | qimba/formats.py:150 | a stripped string is trimmed, and a trimmed string is its own strip |
| Text.StripIdempotent | qimba/formats.py:150 | stripping twice is stripping once |
| Text.IndexFrom | qimba/commands/make_mapping.py:56 | the first occurrence of a pattern, or none |
| Text.Before | qimba/commands/make_mapping.py:57 | `s.split(tag)[0]` is the prefix before the first occurrence: the tag follows it and starts at no earlier position; all of `s` when the tag does not occur |
| Text.RemoveAll | qimba/commands/make_mapping.py:53 | `replace(pat, '')` never lengthens |
| Text.RemoveAllAbsent | qimba/commands/make_mapping.py:53 | removing an absent string changes nothing |
| Text.RemoveAllShrinks | qimba/commands/make_mapping.py:53 | a removal that found something shortens by at least the pattern's length |
| Text.RemoveAllRemovesEveryOccurrence | qimba/commands/make_mapping.py:53 | for any text: when no occurrence starts earlier, the next occurrence is removed and the scan continues after it, so every non-overlapping occurrence goes |
| Text.Split | qimba/core.py:140 | `split(c)` gives at least one field, none holding `c` |
| Text.SplitJoin | qimba/core.py:140 | splitting a joined line gives the fields back when none holds the separator |
| Text.Join | qimba/core.py:140 | `sep.join(xs)`; `SplitJoin` states it splits back |
| Text.EndsWith | qimba/commands/make_mapping.py:45 | `str.endswith(suffix)`: the suffix is the tail of the string |
| Text.SplitFirstWord | qimba/utils.py:27 | `split(maxsplit=1)`: at most two parts; none exactly for blank text; a word, then a rest starting with a non-space |
| Text.SplitFirstWordPair | qimba/utils.py:27 | a word, a space and a rest split into that word and rest |
| Text.NatToString | qimba/commands/dada2_split.py:98 | `str(n)` is all digits |
| Text.ParseNatToString | qimba/commands/dada2_split.py:161 | `int(str(n)) == n` |
| Text.Basename | qimba/commands/make_mapping.py:49 | `Path(p).name` is the suffix after the last `/` |
| Text.Parent | qimba/core.py:69 | `Path(p).parent`: the text before the last `/`, `/` for a name right under the root, or `.` when there is no `/` |
| Sorting.LexLeTotal | qimba/formats.py:226 | string order is total |
| Sorting.LexLeTrans | qimba/formats.py:226 | string order is transitive |
| Sorting.LexLeAntisym | qimba/commands/make_mapping.py:73 | string order is antisymmetric |
| Sorting.SortByPermutes | qimba/formats.py:226-228 | `sorted` returns a permutation of its input |
| Sorting.SortBySorted | qimba/formats.py:226-228 | `sorted` returns its input in ascending key order |
| Sorting.SortBySortedIsIdentity | qimba/formats.py:226-228 | sorting a sorted sequence changes nothing |
| Sorting.SortByIdempotent | qimba/formats.py:226-228 | sorting twice is sorting once |
| Sorting.SortByStable | qimba/formats.py:226-228 | `sorted` is stable: for every key, the elements with that key appear in the same order as in the input |

## Left out

- Real I/O: opening, reading and writing files, `Path.exists`, `mkdir`, launching a process, and `datetime.now`. The file system is the `Core.FileSystem` class. The process outcome, the timestamp and the set of existing paths are parameters.
- Core.Job.Run: a command that cannot be launched (an empty argument list, which makes `subprocess.run` raise `IndexError`, or an `OSError` from `subprocess.run`) is not modelled; the model launches it like any other.
- Core.Job.Run: when both streams go to the same log, the model appends all of stderr before all of stdout. The real interleaving depends on the process.
- Core.Job.EnsureLogDirs: `mkdir(parents=True)` also creates missing ancestors. The model adds only the log's parent directory.
- Core.Job.constructor: `shlex.split` and `shell=True` are outside the model. A string command goes through a splitter passed as a parameter, and `shell` is only stored.
- The csv module's quoting and escaping. Rows are taken as already split, and output rows are fields, not encoded text.
- Python's Unicode rules for `isdigit`, `upper`, `lower` and whitespace. ASCII only is modelled. `Text.IsSpace` is Python's ASCII whitespace: space, `\t`, `\n`, `\r`, `\x0b`, `\x0c` and the separators `\x1c`-`\x1f`.
- Dada2Split.Tally: `int()` also accepts signs, surrounding whitespace and underscores. The model accepts only empty cells and plain digits. Validation already rejects everything else, so this changes nothing for `Split`.
- `Path` normalisation: `Path("")` becoming `.`, and `.absolute()` when saving with `absolute_paths=True`. Paths are opaque strings, and `save_to_file` is modelled without `absolute_paths`.
- `relative_to(input_dir)` in `write_mapping`. The mapping rows hold the paths as given.
- The order of `glob('**/*')`. The directory walk is a given sequence of entries.
- Process exits, `click.echo` messages and `sys.exit` codes. They become `Result` values.
- `extract_from_log` (a regular-expression search with float conversion) and `make_temp_dir` (`tempfile.mkdtemp`): I/O and library behaviour outside the core.
- Formats.SampleSheet.Sort: the `SortBy` enum argument is taken as its lower-case string value.
- `SampleSheet.__iter__` is the `samples` sequence itself. `__len__` is `Formats.SampleSheet.Len`, with no contract of its own.
- `write_tsv` is modelled as the rows it writes: the header, then the simplified rows.
