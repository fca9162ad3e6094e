# kivagen: settings-file codec and run decisions

A Dafny model of the parameter-sweep core of kivagen, which runs the KIVA
combustion simulator once per reference point and scores the ignition delays it
computes against measured ones.

Two parts are modelled:

- `ITapeFile`, the reader and writer of the simulator's keyed numeric settings
  files (`itapeERC`, `itapeRs`). Loading turns every line into one entry. A line
  the line pattern matches becomes a number, its comment key and a format
  descriptor derived from how the number was written. Any other line is kept
  verbatim. Entries are looked up by key, updated in place keeping their int or
  float kind, and saved back with each `!` at the column of the `!` on the file's first line (no padding when that line has none), or right after a wider number.
- The decision rules of `KivaRunner`:
  - the ownership check of the working directory;
  - range checks of parameters;
  - loading and replacing the parameter vector;
  - reading the reference rows;
  - patching line 230 of each run's `itape5`;
  - pairing each run's ignition delay with its reference time;
  - the fitness of a batch.

The source is Python 2, and the model follows its semantics:
- `None` orders below every number, so a missing parameter fails its range check.
- `int()` of a float truncates toward zero.
- `str.strip` removes ASCII white space only.

Some behaviour the model keeps abstract. Matching a line against the pattern,
`int()`/`float()` of a token, rendering a number through a format string and
`round` are passed in as a `Builtins` record of functions. Proofs use only what
`Runtime.MatcherSound` and `Runtime.RenderSound` say about them. The second
pattern, which counts decimal places, is modelled exactly in `DecimalPlaces`.
File contents are passed in as `readlines()` results (`Text.ReadLines`), and a
missing file is `None`. The reference rows arrive as the field lists
`csv.reader` yields, so its splitting at commas and its quoting are not
modelled. The `ReadCompareFile` row covers `RowPoint`, the point one parsing row
gives.

Behaviour of the code that the model keeps as it is:
- `save` deletes every `+` of a rendered number.
- A file saved unchanged is not byte-identical to the loaded one (see Findings).
- A zero total error makes `getFitness` raise `ZeroDivisionError`.
- A failed run is not retried.

Files:
- `wrappers.dfy`: `Option` and `Result`.
- `text.dfy`: the string functions the source uses.
- `runtime.dfy`: numbers, formats and the abstract built-ins.
- `decimal_places.dfy`: the decimal-places pattern.
- `itape.dfy`: the codec.
- `itape_save.dfy`: what a saved file reads back as.
- `kiva_runner.dfy`: the runner's decision rules.

## Model

| member | source | states |
|---|---|---|
| Text.Find | src/itape.py:28-32 | `str.find`: -1 exactly when the character does not occur, otherwise the index of its first occurrence |
| Text.ReadLines | src/itape.py:25 | `readlines()`: the lines concatenate back to the text, every line but the last ends in a newline, and the last ends in one iff the text does |
| Text.ReadLinesConcatInverse | src/itape.py:25 | splitting the concatenation of well-split lines gives back those lines |
| Text.ReadLinesAppend | src/itape.py:25 | splitting a text after a newline-terminated prefix splits the prefix and the rest independently |
| Text.RemoveAll | src/itape.py:95 | `replace('+', '')`: the result holds no `+`, is no longer than the input, keeps every other character with its multiplicity, and is the input when it had no `+` |
| Text.RemoveAllAppend | src/itape.py:95 | deleting a character distributes over concatenation |
| Text.LJust | src/itape.py:96 | `ljust(width)`: the text followed by blanks up to the width; never cut, even for a width of -1 |
| Text.Strip | src/kiva_runner.py:228 | `strip()`: a slice of the input with no leading or trailing white space, and only white space removed around it |
| Runtime.Truncate | src/itape.py:81 | `int()` of a float rounds toward zero, for negative values as well |
| DecimalPlaces.FirstMatch | src/itape.py:18 | the search finds the leftmost start at which the pattern matches, with the longest first group that still matches there, and reports no match only when none exists |
| DecimalPlaces.Places | src/itape.py:44-48 | places never exceed the token's length and are 0 when the pattern does not match |
| DecimalPlaces.PlacesOfDecimal | src/itape.py:44-52 | a token `<signs/digits>.<digits><non-digit rest>` records exactly the number of digits after the point, also before an exponent |
| DecimalPlaces.PlacesOfTrailingPoint | src/itape.py:18 | `123.` records one place, because the unescaped `.` of the pattern matches a digit |
| DecimalPlaces.PlacesOfLeadingPoint | src/itape.py:44-48 | `.5` does not match and records no places |
| ITape.FormatOf | src/itape.py:42-56 | a token without a point gets the integer format `d`. A token with a point gets a fixed-point format, or an exponential one exactly when it has an `e`, with the places the decimal-places pattern counts |
| ITape.ClassifyLine | src/itape.py:36-62 | an unmatched line is kept raw. A matched token with a point is a float with a fixed or (iff it has an `e`) exponential format and the counted places. Any other matched token is an int. The comment is the key, and the line fails exactly when the token does not parse |
| ITape.LoadEntries | src/itape.py:35-62 | one entry per line in order, or the index of the first line that fails, all earlier lines succeeding |
| ITape.Open | src/itape.py:16-62 | a missing file at construction is an error, and on reload keeps the old entries and width. An empty file is an error. Otherwise loading succeeds iff every line classifies, the width is the column of the first `!` of line 1, and entry k is line k classified |
| ITape.OpenConsistent | src/itape.py:42-57 | after loading, every numeric entry's kind agrees with its format (an int with the integer format `d`, a float with a fixed-point or exponential one) |
| ITape.OpenKeepsUnmatchedLines | src/itape.py:61-62 | an unmatched line is stored verbatim at its own index |
| ITape.AlignmentWarnings | src/itape.py:29-34 | a line number is warned about iff its line has a `!` not at the width; numbers are ascending |
| ITape.FirstLineAligned | src/itape.py:28-34 | the first line is never warned about |
| ITape.GetId | src/itape.py:64-74 | -1 iff no numeric entry has the key, otherwise the index of the first one that has it; raw lines count for the index |
| ITape.Slot | src/itape.py:77 | Python indexing: a negative id counts from the end |
| ITape.GetValue | src/itape.py:76-77 | the number of a numeric entry, the line of a raw one |
| ITape.SetValue | src/itape.py:79-85 | an int entry stores `int(x)` and a float entry `float(x)`, keeping key and format. A raw entry is left alone. No other entry, the name or the width changes |
| ITape.GetAfterSet | src/itape.py:76-85 | reading after writing yields the written value converted to the entry's original kind |
| ITape.SetValueConsistent | src/itape.py:79-85 | writing keeps every entry's kind in agreement with its format |
| ITape.SetValueIdempotent | src/itape.py:79-85 | writing the same value twice equals writing it once |
| ITape.GetIdAfterSet | src/itape.py:64-85 | writing a value never changes which entry a key finds |
| ITape.Save | src/itape.py:87-100 | one newline-terminated line per entry. A numeric line holds the `+`-free rendered number, blanks up to the width, `!` at column max(width, number length), then the comment. A raw line is its stored text plus a newline |
| ITape.SavedCommentColumn | src/itape.py:93-99 | in a saved numeric line the first `!` is at the width, or right after a number wider than it |
| ITapeSave.SaveReadBack | src/itape.py:93-99 | reading a saved file back gives one line per numeric entry and raw line without a newline, and two per raw line ending in one |
| ITapeSave.ReadBackLength | src/itape.py:93-99 | the read-back holds one line per entry plus one per raw line ending in a newline |
| ITapeSave.LoadedShape | src/itape.py:24-62 | a loaded file's comments are single lines and its raw entries are the file's own lines |
| ITapeSave.SaveAddsBlankLines | src/itape.py:98-99 | saving a loaded, unchanged file with an unmatched newline-terminated line yields more lines than were loaded |
| ITapeSave.SaveAddsBlankLineExample | src/itape.py:98-99 | the one-line file `title\n`, unmatched by the pattern, reads back after an unchanged save as the two lines `title\n` and `\n` |
| ITapeSave.SaveCorrected | src/itape.py:87-100 | the save with raw lines written as stored: one line per entry, numeric lines as `save` writes them |
| ITapeSave.CorrectedSaveReadBack | src/itape.py:87-100 | a corrected save of `readlines()`-shaped entries reads back as exactly the lines written |
| ITapeSave.LoadSaveCorrected | src/itape.py:87-100 | load, corrected save, read back: the same number of lines, each unmatched line unchanged in its place |
| ITapeSave.SaveCorrectedExample | src/itape.py:87-100 | with raw lines written as stored, the same file reads back as its one line `title\n` |
| KivaRunner.CheckWorkingDir | src/kiva_runner.py:33-46 | a missing directory sets the error flag. A non-empty directory without the marker sets it and stops construction. An empty one gets the marker. A marked one is kept as it is. The directory is dropped exactly when the flag is set |
| KivaRunner.AcceptedIffOwned | src/kiva_runner.py:33-46 | a directory is accepted iff it exists and is empty or marked; once accepted it holds the marker |
| KivaRunner.CheckWorkingDirStable | src/kiva_runner.py:33-46 | checking an accepted directory again changes nothing |
| KivaRunner.CheckParameter | src/kiva_runner.py:125-136 | the value comes back iff it is present and within the inclusive bounds, else `None` |
| KivaRunner.FirstValue | src/itape.py:64-77 | a key has a value iff some numeric entry carries it |
| KivaRunner.LoadParameters | src/kiva_runner.py:69-95 | one slot per format row, in order: the first value with the row's key if it is in range, else `None` |
| KivaRunner.LoadedVectorValid | src/kiva_runner.py:89-95 | a loaded vector with no empty slot passes every range check |
| KivaRunner.SetParameters | src/kiva_runner.py:107-122 | the vector is replaced iff the lengths agree and every element is in range. Otherwise it is kept, and the first failing index or the length mismatch is reported |
| KivaRunner.ReadCompareFile | src/kiva_runner.py:139-154 | at most one point per row. Exactly one per row iff every row parses, and then each point is `[round(1000/r0), r1]` of its row. Every point comes from some parsing row |
| KivaRunner.ReadCompareFileAppend | src/kiva_runner.py:146-153 | reading two blocks of rows gives the points of the first followed by those of the second |
| KivaRunner.DropsUnparsableRow | src/kiva_runner.py:147-153 | a row whose second field does not parse adds no point |
| KivaRunner.PatchTemperature | src/kiva_runner.py:193-201 | line 230 becomes `'tempi',` with five blanks, the temperature to one place and a newline; every other line is unchanged |
| KivaRunner.PatchTwice | src/kiva_runner.py:196-198 | a second patch overrides the first |
| KivaRunner.SetupRuns | src/kiva_runner.py:161-201 | without a working directory nothing is set up. Otherwise there is one `itape5` per point, each a copy of the original patched with that point's temperature |
| KivaRunner.RunsDifferOnlyInTemperature | src/kiva_runner.py:183-198 | any two runs' `itape5` files agree on every line but line 230 |
| KivaRunner.Delay | src/kiva_runner.py:211-228 | a missing result file yields delay 0; otherwise the float on its stripped first line |
| KivaRunner.CollectIgnitionDelay | src/kiva_runner.py:204-235 | one `[delay, reference]` pair per point, in order, carrying the point's reference time and its run's delay |
| KivaRunner.TotalError | src/kiva_runner.py:293-295 | the summed absolute error is never negative |
| KivaRunner.TotalErrorZero | src/kiva_runner.py:293-295 | the summed error is zero iff every delay equals its reference time |
| KivaRunner.Fitness | src/kiva_runner.py:288-297 | fitness is positive and multiplied by the summed error gives 1000 |
| KivaRunner.FitnessMonotonic | src/kiva_runner.py:288-297 | a strictly smaller summed error gives a strictly higher fitness |
| KivaRunner.FitnessExample | src/kiva_runner.py:293-296 | delays 0.6 and 1.0 against references 0.5 and 1.2 give total 0.3 and fitness 10000/3 |

## Left out

- The process supervision of `run()` (src/kiva_runner.py:237-286) is not modelled: spawning, polling, the shared timeout and killing need a process and a clock.
- Filesystem effects are not modelled: deleting and recreating run directories, copying and saving input files, moving logs of failed runs. File contents and the presence of files are inputs instead.
- The constructor's checks of the log directory and of the input files (src/kiva_runner.py:47-60) only log and set the error flag; they are not modelled.
- Logging is not modelled. This includes the misalignment warnings, which `ITape.AlignmentWarnings` lists but does not emit.
- `pyevolve_kiva.py`, the glue to the genetic-algorithm library, is not modelled.
- Floats are exact reals: IEEE rounding and the order-dependence of the float sum in `getFitness` are not modelled.
- Rendering a number through a format string, parsing with `int()`/`float()`, `round` and the line pattern are abstract functions. The model relies only on what the matcher's groups can hold and on rendered numbers being single lines without `!`.
- ITape.SetValue: Python 2 `long` values are not modelled. A token too large for an `int` parses as a `long`, which the source treats like a raw entry on write.
- ITape.GetValue: requires `-len <= id < len`. Any other id makes `self.values[id]` raise `IndexError`, which the precondition excludes.
- ITape.SetValue: requires `-len <= id < len`. Any other id makes `self.values[id]` raise `IndexError`, which the precondition excludes.
- ITape.Open: a missing file at construction is the `Missing` error. The source leaves an object without values, which fails on its first use.
- KivaRunner.LoadParameters: takes the settings files already opened and reloaded, as a map from file name to tape. It requires every row to name `itapeERC` or `itapeRs` and that file to have loaded, since the source raises otherwise. A row naming another file raises `TypeError` (src/kiva_runner.py:87) or `KeyError` (src/kiva_runner.py:89). A settings file that did not load raises one of three errors. A missing file leaves the tape without values, so `getId` raises `AttributeError`. An empty file raises `IndexError`, and an unparsable token raises `ValueError`.
- KivaRunner.SetParameters: when the lengths differ the source raises `NameError` (it writes `sel.log`) before storing anything. The model reports this as the `LengthMismatch` outcome with the vector kept. The source stores the caller's list object itself, and `getParameters` (src/kiva_runner.py:105) hands that same object out, so a later in-place change by either side reaches the stored vector without a range check. The model stores a value and does not model this sharing; nothing inside the core changes the list in place.
- KivaRunner.ReadCompareFile: requires every row to have a first field, and a second one when the first parses, and the first not to be zero. Otherwise the source raises `IndexError` or `ZeroDivisionError`, which its `ValueError` handler does not catch.
- KivaRunner.PatchTemperature: requires `itape5` to have at least 230 lines (`IndexError` otherwise).
- KivaRunner.SetupRuns: the check that each run's `itape5` exists (src/kiva_runner.py:189) is not modelled, since copying would already have failed without it.
- KivaRunner.CollectIgnitionDelay: requires readable result files and non-zero reference times. The source raises otherwise, because it divides by the reference time for a log message.
- KivaRunner.Fitness: requires a non-zero total error (`ZeroDivisionError` otherwise).

## Findings

| source | as written | input that shows it | evidently intended | confidence | as-written member | corrected member |
|---|---|---|---|---|---|---|
| src/itape.py:98-99 | a raw entry is written as its stored line plus `'\n'`, but the stored line from `readlines()` already ends in a newline | the one-line file `title\n`, which the pattern does not match, loaded and saved unchanged, becomes `title\n\n`: an empty line is added | raw lines written exactly as loaded, so an unchanged file keeps its lines | not executed; high | ITapeSave.SaveAddsBlankLineExample | ITapeSave.LoadSaveCorrected |
