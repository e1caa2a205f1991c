# Sky-location sample extractor, modelled in Dafny

`LVK_skyloc_samples/extract_skyloc_samples.py` collects the sky-location
posterior samples of the LIGO–Virgo–KAGRA catalogue releases (GWTC-2.1,
GWTC-3.0, GWTC-4.0) into one HDF5 file per release and prior choice. For every
posterior file of a release it keeps the groups whose names mark a calibrated
analysis ("C01" or "C00"). It derives the event name from the file name. It
writes `event/key/skyloc_samples` holding the desired sky-location, distance and
SNR columns over all sample rows. A fixed table maps (catalogue, cosmological
reweighting) to the files to read and the output to write. The command line
picks one entry of that table, or all of them with `--catalogue All`.

The model has seven modules:

- `Wrappers`: `Option`, `Result` and `Outcome`.
- `Errors`: the three ways a run stops. These are an invalid (catalogue, cosmo) combination, a GWTC-4 file name with too few '-' fields, and an output group that already exists.
- `Text`: substring search (`sub in s`), `str.split` on a non-empty separator and its inverse `join`, with lemmas about them.
- `EventNames`: the two file-naming conventions.
- `Selection`: the analysis-key filter and the intersection with the six desired column names.
- `Extraction`: the extraction run.
  - The reference definition is `Extract`, a fold that copies the analysis groups of the files in order into a map from `event/key` to (columns, rows). It stops at the first error.
  - `OutputFile` is the output file as a class whose map field is updated in place.
  - `LoopAndExtract` is the nested loop of `loop_and_extract`, proved against `Extract`.
- `Scenarios`: the scenario table, its lookup, the `All` dispatch, and `Run`, the entry point that runs the selected scenarios one after another.

## Model

| member | source | states |
|---|---|---|
| Text.FindFromFound | LVK_skyloc_samples/extract_skyloc_samples.py:31 | the position the substring search reports is an occurrence of the searched text |
| Text.FindFromFirst | LVK_skyloc_samples/extract_skyloc_samples.py:31 | the search skips no occurrence: none lies before the position it reports, and there is none at all when it reports nothing |
| Text.ContainsMeaning | LVK_skyloc_samples/extract_skyloc_samples.py:31 | `sub in s` holds exactly when `sub` occurs at some position of `s` |
| Text.ContainsChar | LVK_skyloc_samples/extract_skyloc_samples.py:34-35 | a one-character search succeeds exactly when the character is in the string |
| Text.PrefixBeforeFirst | LVK_skyloc_samples/extract_skyloc_samples.py:37 | the text before the first occurrence of a separator does not contain that separator |
| Text.JoinSplit | LVK_skyloc_samples/extract_skyloc_samples.py:35-37 | joining the fields of `s.split(sep)` with `sep` gives back `s` |
| Text.SplitFieldsAvoidSeparator | LVK_skyloc_samples/extract_skyloc_samples.py:35-37 | no field of `s.split(sep)` contains `sep` |
| Text.SplitHead | LVK_skyloc_samples/extract_skyloc_samples.py:37 | field 0 of a split is a prefix of the string without the separator, and is either the whole string or followed by the separator. No occurrence of the separator starts inside it, which pins it down even for a separator that overlaps itself |
| Text.SplitCharCount | LVK_skyloc_samples/extract_skyloc_samples.py:35 | splitting on one character gives one more field than that character has occurrences |
| Text.SplitLastChar | LVK_skyloc_samples/extract_skyloc_samples.py:37 | field -1 of a split on one character is a suffix without that character, and is either the whole string or preceded by it |
| EventNames.EventNameOutcome | LVK_skyloc_samples/extract_skyloc_samples.py:34-37 | derivation fails exactly for a name containing "GWTC4" with fewer than three '-' (fewer than four fields); the error names the file; a derived event name never contains '-' |
| EventNames.Gwtc4EventName | LVK_skyloc_samples/extract_skyloc_samples.py:34-35 | for a GWTC-4 name the event is field 3 of at least four '-'-free fields that, joined with '-', give back the name |
| EventNames.ReleaseEventName | LVK_skyloc_samples/extract_skyloc_samples.py:36-37 | for any other name derivation always succeeds. The event is the '-'-free tail of the text before the first "_PEDataRelease". That tail starts after the last '-' of the prefix, or at the prefix's start when it has no '-' |
| Selection.AnalysisKeyMeaning | LVK_skyloc_samples/extract_skyloc_samples.py:30-32 | a group qualifies exactly when "C01" or "C00" occurs somewhere in its name |
| Selection.SelectColumns | LVK_skyloc_samples/extract_skyloc_samples.py:39 | the selected columns are desired columns (of the six fixed at line 23) and columns of the dataset, and every desired column the dataset has is selected |
| Selection.SelectDropsUnwanted | LVK_skyloc_samples/extract_skyloc_samples.py:39 | columns {ra, dec, mass1, mass2} are reduced to {ra, dec} |
| Extraction.QualifyingMembers | LVK_skyloc_samples/extract_skyloc_samples.py:30-32 | the groups taken from one file are exactly its groups whose names pass the filter |
| Extraction.PendingsMembers | LVK_skyloc_samples/extract_skyloc_samples.py:27-37 | the groups a run copies are exactly the analysis groups of its files, each paired with the event-name outcome of its own file's name |
| Extraction.InsertAllSucceeds | LVK_skyloc_samples/extract_skyloc_samples.py:38-44 | copying succeeds exactly when every group's file name yields an event name and every group lands on a path that is neither in the output nor used by another group |
| Extraction.InsertAllKeys | LVK_skyloc_samples/extract_skyloc_samples.py:38-44 | a copy that fits adds exactly the copied groups' paths to the output; the output grows by exactly one entry per copied group |
| Extraction.InsertAllValues | LVK_skyloc_samples/extract_skyloc_samples.py:38-44 | a copy that fits leaves every existing entry unchanged. Each copied group's entry holds its selected columns and its full row count |
| Extraction.ExtractSucceeds | LVK_skyloc_samples/extract_skyloc_samples.py:25-45 | a run starting from the empty output succeeds exactly when all analysis groups are named and their paths are pairwise distinct |
| Extraction.ExtractOnlyAnalysisGroups | LVK_skyloc_samples/extract_skyloc_samples.py:30-44 | after a successful run every output entry sits at `event/key` of an analysis group of some file, where `event` is that file's event name, and holds that group's selected columns and row count |
| Extraction.ExtractCoversAnalysisGroups | LVK_skyloc_samples/extract_skyloc_samples.py:27-44 | after a successful run every analysis group of every file is at `event/key` with its selected columns and row count, and the output has one entry per analysis group |
| Extraction.DuplicateAborts | LVK_skyloc_samples/extract_skyloc_samples.py:43 | two differently named files with the same event name that both have an analysis group of the same name make the run fail |
| Extraction.SkippedGroupChangesNothing | LVK_skyloc_samples/extract_skyloc_samples.py:30-32 | inserting a group whose name has neither "C01" nor "C00" anywhere into any file leaves the run's result unchanged |
| Extraction.InsertAllFailure | LVK_skyloc_samples/extract_skyloc_samples.py:34-43 | a copy that fails reports an error some group is to blame for. Either its file name yields no event name and the error is that derivation's, or its path is taken by the output or by an earlier group and the error is the duplicate-group error for that path |
| Extraction.ExtractFailureReason | LVK_skyloc_samples/extract_skyloc_samples.py:25-45 | a failing run reports one of two errors. One is the malformed name of a file that has an analysis group and whose name yields no event name. The other is the duplicate-group error for a path `event/key` that two distinct analysis groups of the run both land on |
| Extraction.OutputFile.Truncate | LVK_skyloc_samples/extract_skyloc_samples.py:26 | opening the output in mode "w" leaves it empty, whatever it held |
| Extraction.OutputFile.CreateGroup | LVK_skyloc_samples/extract_skyloc_samples.py:43-44 | creating `event/key` succeeds exactly when the path is new, and then adds exactly that entry; otherwise it fails with a duplicate-group error and leaves the file as it was |
| Extraction.LoopAndExtract | LVK_skyloc_samples/extract_skyloc_samples.py:25-45 | whatever the output held before, a run that passes leaves exactly `Extract(files)` in it, and a run that fails reports the error `Extract(files)` stops at |
| Scenarios.LookupIn | LVK_skyloc_samples/extract_skyloc_samples.py:83-85 | lookup returns a table entry registered under the requested key. It fails with an invalid-combination error naming the key exactly when no entry has that key |
| Scenarios.LookupInFindsEntry | LVK_skyloc_samples/extract_skyloc_samples.py:83-88 | in a table with distinct keys, looking up an entry's key returns that very entry |
| Scenarios.TableWellFormed | LVK_skyloc_samples/extract_skyloc_samples.py:47-68 | the table has five entries, with pairwise distinct keys and pairwise distinct output files |
| Scenarios.LookupFindsEveryEntry | LVK_skyloc_samples/extract_skyloc_samples.py:47-68 | each of the five registered (catalogue, cosmo) pairs selects exactly its own entry |
| Scenarios.Dispatch | LVK_skyloc_samples/extract_skyloc_samples.py:74-88 | "All" selects the whole table in order. Any other catalogue selects the single entry registered under (catalogue, cosmo), and the selection succeeds exactly when such an entry exists. Otherwise it fails with an invalid-combination error |
| Scenarios.AllIgnoresCosmo | LVK_skyloc_samples/extract_skyloc_samples.py:76-80 | with "All" the reweighting flag makes no difference |
| Scenarios.Gwtc4CosmoInvalid | LVK_skyloc_samples/extract_skyloc_samples.py:64-68 | ("GWTC4.0", with reweighting) is not registered and is rejected with an invalid-combination error |
| Scenarios.Gwtc2p1CosmoExample | LVK_skyloc_samples/extract_skyloc_samples.py:48-51 | ("GWTC2.1", with reweighting) reads the `*_cosmo.h5` files of the GWTC-2.1 directory into `GWTC2p1_cosmo_skyloc_samples.h5` |
| Scenarios.DispatchSelectsRegistered | LVK_skyloc_samples/extract_skyloc_samples.py:76-88 | every selected scenario is a registered one, and selected scenarios write to distinct outputs |
| Scenarios.RunScenarios | LVK_skyloc_samples/extract_skyloc_samples.py:76-80 | the scenarios run in order, each into its own output. A passing run leaves each output holding exactly the extraction of its sources. A failing one reports the first failing scenario's error and has completed every scenario before it. No output file that the scenarios run so far do not write is changed |
| Scenarios.Run | LVK_skyloc_samples/extract_skyloc_samples.py:70-88 | a rejected combination changes no output file and reports the error. Otherwise the selected scenarios run as `RunScenarios` states. Output files the invocation does not select, and the outputs of scenarios after a failing one, stay as they were |

## Left out

- HDF5 I/O through h5py is not modelled: opening, reading, closing, and writing the `skyloc_samples` dataset. The output file is the map held by `Extraction.OutputFile`, and a source file is its name plus its groups, each with a name, column names and a row count.
- Sample values and the structured-array slice `samples[*int_keys]` are not modelled. An entry carries only the set of selected column names and the row count.
- Column order in the written dataset follows Python's set iteration order. The model keeps the selected columns as a set.
- When no desired column is present, the empty field selection is passed to h5py and its result depends on h5py. The model records the empty set and claims nothing about what h5py writes.
- A qualifying group without a `posterior_samples` dataset raises a `KeyError` in the source. The model assumes every group has one.
- HDF5 path normalisation is not modelled. An event name or key that is empty or contains '/' would land at a path other than `event/key`; the model keys entries by the (event, key) pair.
- The `Path.glob` listing, its file-system order and the hard-coded root directory are not modelled. `Scenarios.Run` takes the listing as a function from a glob to a sequence of files, and the model keeps only the directory paths below the root.
- argparse parsing and all `print` logging are not modelled. `Scenarios.Run` takes the parsed catalogue and flag as parameters.
- Python exceptions become error values. `IndexError` from `split('-')[3]` becomes `MalformedFileName`, the `ValueError` raised by `create_group` on an existing path becomes `DuplicateGroup`, and the `ValueError` for an unregistered combination becomes `InvalidScenario`. Each ends the invocation, as the uncaught exception does.
- Extraction.LoopAndExtract: on failure the contract states only the error. It says nothing about the partially written output file.
- Scenarios.Run: on failure nothing is stated about what the output file of the failing scenario holds.
