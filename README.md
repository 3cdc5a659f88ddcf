# SLogFileOutput in Dafny

This project models the two file writers of the SLogFileOutput logging package:

- `FileLogBackend`, the rotating writer;
- `FileLogOutput`, the older writer that keeps one file per day.

It also models the file-name provider each writer uses.

Both writers render each `log` call into one text line and keep it in an in-memory buffer. When the buffer reaches `maxBufferSize` lines, they flush: the buffered lines are joined by "\n", a final "\n" is added, and the result is appended to the current log file. A failed append keeps the buffer and adds an error-level report line to it.

The rotating writer adds three things:
- Before appending, it moves to a new file when the current one is larger than `maxLogFileSizeInBytes`.
- After appending, it deletes the lowest-indexed log files beyond `maxLogFilesCount`.
- Its file names encode `{index, dateString}`. Names that do not decode, or whose date does not parse, are not log files.

Both writers offer `removeLogs(olderThan:)`, which deletes the listed log files dated before a cutoff.

Layout:
- `filesystem.dfy`: the storage directory. `FileSystem.Disk` is a class whose methods are proved against value functions on a `Volume` snapshot. A `Volume` holds the listing order, the contents, per-name write/delete faults, and whether the directory can be resolved and listed.
- `logline.dfy`: line rendering, severity symbols, and what a flush writes (`Batch`).
- `lognamecodec.dfy`: the name codec `LogName` ⇄ file name.
- `backendfilenames.dfy`: `DefaultFileNameProvider` as pure queries over a `Storage`. `Storage` is what resolving and listing the directory gave.
- `outputfilenames.dfy`: `DefaultLogOutputFileNameProvider`.
- `filelogbackend.dfy`, `filelogoutput.dfy`: each writer has two parts:
  - value functions (`Flushed`, `Logged`, `Pruned`, `LogsRemoved`) that say what each operation does to the buffer, the current path and the directory;
  - a class whose methods are proved to do exactly that, plus lemmas about those functions.
- `dates.dfy`, `strings.dfy`, `seqs.dfy`, `options.dfy`: the supporting vocabulary.

Some consequences of the code worth noting:
- `init` appends "\n" to its file first (FileLogBackend.swift:66-67). After construction and two logged lines `a` and `b`, the file therefore holds "\na\nb\n" (`SLogFileBackend.TwoLinesScenario`).
- `removeLogs(olderThan:)` does not flush the buffer first.
- `getUrlsOfFilesOlderThan` of the day-per-file provider rebuilds each URL from the parsed day. A name such as "7.log" that only reduces to a date string therefore yields the URL of that day's canonical file (`OutputFileNames.ForeignNameRebuilt`).
- A flush whose append fails reports the failure through `log`, and that `log` flushes again when the buffer is still at its limit. Under a lasting write fault this repeats without end (see "## Findings").

The clock, the timestamp formatter, the level-to-symbol mapping and the template converter are parameters (`now`, `Renderer`). The file system is the `Disk` object passed to the constructors.

## Model

| member | source | states |
|---|---|---|
| FileSystem.Disk.Append | Sources/SLogFileBackend/FileLogBackend.swift:187-191 | An append passes unless the name has a write fault. A passing append creates the file if it is missing and extends its content by the data. Nothing else changes. |
| FileSystem.Disk.Remove | Sources/SLogFileBackend/FileLogBackend.swift:217-218 | A delete fails on a faulty or missing name. Otherwise it drops the name from the listing and from the contents. |
| FileSystem.Disk.FileSize | Sources/SLogFileBackend/FileLogBackend.swift:182 | The size of a file, 0 when it is missing. |
| FileSystem.Appended | Sources/SLogFileBackend/FileLogBackend.swift:187-191 | On a pass the target gains exactly the data and every other file is unchanged. A failed append changes nothing. The listing only grows. The listing stays well formed. |
| FileSystem.RemovedAllSpec | Sources/SLogFileBackend/FileLogBackend.swift:97-103 | Deleting a run of names removes exactly the named files that have no fault. Every other file is kept as it is. |
| FileSystem.RemovedAllOnlyDeletes | Sources/SLogFileBackend/FileLogBackend.swift:97-103 | Deleting a run of names never creates a file, never changes a content, and never drops an unnamed file. |
| LogLine.GetSign | Sources/SLogFileBackend/FileLogBackend.swift:85-95 | Every level has a non-empty symbol. |
| LogLine.GetSignInjective | Sources/SLogFileBackend/FileLogBackend.swift:85-95 | Distinct levels have distinct symbols. |
| LogLine.RenderDefaultsSource | Sources/SLogFileBackend/FileLogBackend.swift:70-76 | A `log` call without a source renders exactly as one whose source is "#unknown"; the message part is `convert(_:)` (lines 224-231) of the message either way. |
| LogLine.RenderSingleLine | Sources/SLogFileBackend/FileLogBackend.swift:72-76 | A rendered line holds no "\n" when its timestamp, symbol, source, function name and the message as `convert(_:)` (lines 224-231) gives it hold none; the line number is decimal digits. |
| LogLine.BatchReadBack | Sources/SLogFileBackend/FileLogBackend.swift:188-189 | The text a flush writes for single lines reads back as exactly those lines, in order. |
| LogLine.BatchIsLines | Sources/SLogFileBackend/FileLogBackend.swift:188-189 | Joining a non-empty buffer with "\n" and adding a final "\n" writes each line followed by "\n", in buffer order. |
| LogLine.LinesAppend | Sources/SLogFileBackend/FileLogBackend.swift:188-189 | Writing two runs of lines writes their concatenation. |
| LogLine.BatchAppend | Sources/SLogFileBackend/FileLogBackend.swift:188-189 | Two successive batches equal the one batch of all their lines. |
| LogLine.SplitLinesOfLines | Sources/SLogFileBackend/FileLogBackend.swift:188-189 | Lines without "\n" are read back from the written text exactly, in order. |
| LogNameCodec.Encode | Sources/SLogFileBackend/Internal/DefaultFileNameProvider.swift:128-130 | An encoded name ends in ".log". |
| LogNameCodec.DecodeEncode | Sources/SLogFileBackend/Internal/DefaultFileNameProvider.swift:128-138 | Decoding an encoded name gives back its index and date string. |
| LogNameCodec.EncodeInjective | Sources/SLogFileBackend/Internal/DefaultFileNameProvider.swift:128-130 | Distinct identities get distinct file names. |
| BackendFileNames.Classify | Sources/SLogFileBackend/Internal/DefaultFileNameProvider.swift:47-53 | A name is a log file if and only if it decodes and its date string parses. The result carries the decoded identity and the parsed day. |
| BackendFileNames.LogFilesSpec | Sources/SLogFileBackend/Internal/DefaultFileNameProvider.swift:47-53 | Keeps exactly the listed names that are log files, each with the identity its own name denotes. |
| BackendFileNames.SortBy | Sources/SLogFileBackend/Internal/DefaultFileNameProvider.swift:54 | The result is ascending by the key and is a permutation of the input. |
| BackendFileNames.UrlsSortedByIndexSpec | Sources/SLogFileBackend/Internal/DefaultFileNameProvider.swift:38-56 | The result holds exactly the listed log files, ascending by index. It holds none when the directory cannot be resolved or listed. It has no repeats when the listing has none. |
| BackendFileNames.SortedNamesDistinct | Sources/SLogFileBackend/Internal/DefaultFileNameProvider.swift:47-55 | Sorting the log files of a listing without repeats names each file once. |
| BackendFileNames.UrlsSortedByDateSpec | Sources/SLogFileBackend/Internal/DefaultFileNameProvider.swift:58-76 | The result holds exactly the listed log files, ascending by the date in their names. |
| BackendFileNames.LastIsCurrent | Sources/SLogFileBackend/Internal/DefaultFileNameProvider.swift:21-26 | When some log file is listed, the last name in index order is a listed log file whose index is the current index. |
| BackendFileNames.ListedBelowCurrent | Sources/SLogFileBackend/Internal/DefaultFileNameProvider.swift:21-26 | No listed log file has an index above the current index. |
| BackendFileNames.CurrentIndexIsMax | Sources/SLogFileBackend/Internal/DefaultFileNameProvider.swift:21-26 | The current index is the largest index of any listed log file. It is 0 when there is none, and it is attained when there is one. |
| BackendFileNames.NewestOfListingIsLast | Sources/SLogFileBackend/Internal/DefaultFileNameProvider.swift:38-56 | In any index-ordered listing without repeats, a name whose index is above every other's is last, and appears nowhere else. |
| BackendFileNames.NewestIsLast | Sources/SLogFileBackend/Internal/DefaultFileNameProvider.swift:38-56 | A log file with an index above every other comes last in index order, and only there. |
| BackendFileNames.NextLogUrlIsFresh | Sources/SLogFileBackend/Internal/DefaultFileNameProvider.swift:11-36 | There is no next URL exactly when the directory cannot be resolved. Otherwise the next name is a log file of the given day, with index current + 1. That index is above every listed log file's, so the name is not already listed. |
| BackendFileNames.UrlsOlderThan | Sources/SLogFileBackend/Internal/DefaultFileNameProvider.swift:104-121 | As a set, the result holds exactly the listed log files whose date is before the cutoff; its order is not stated. It is empty when the directory cannot be resolved or listed. |
| OutputFileNames.ExtractCreated | Sources/SLogFileOutput/DefaultLogOutputFileNameProvider.swift:13-20 | Extracting the date string of `log_<date>.log` gives back the formatted date, which parses to the same day. |
| OutputFileNames.CreateLogFileNameInjective | Sources/SLogFileOutput/DefaultLogOutputFileNameProvider.swift:13-16 | Two days share a file name if and only if they are the same day. |
| OutputFileNames.NextLogUrlPerDay | Sources/SLogFileOutput/DefaultLogOutputFileNameProvider.swift:22-24 | Two instants get the same file if and only if they fall on the same day. The file's name denotes that day. |
| OutputFileNames.Rebuilt | Sources/SLogFileOutput/DefaultLogOutputFileNameProvider.swift:26-35 | Every URL is the canonical name of a day before the cutoff. Every listed name whose day is before the cutoff has its day's canonical URL among the results. Every URL is rebuilt from a listed name of that day (`RebuiltFromListed`). |
| OutputFileNames.RebuiltFromListed | Sources/SLogFileOutput/DefaultLogOutputFileNameProvider.swift:26-35 | Every URL in the result is rebuilt from a listed name dated before the cutoff, so no URL names a day that nothing listed denotes. |
| OutputFileNames.UrlsOlderThan | Sources/SLogFileOutput/DefaultLogOutputFileNameProvider.swift:26-39 | An unlistable directory gives no URLs. Every URL given is the canonical file of a day before the cutoff and is rebuilt from a listed name of that day (`RebuiltFromListed`). Every listed name dated before the cutoff has its day's canonical URL among the results. |
| OutputFileNames.RebuiltCanonical | Sources/SLogFileOutput/DefaultLogOutputFileNameProvider.swift:26-35 | When every dated name is its day's canonical name, the result is exactly the older listed names, in listing order. |
| OutputFileNames.ForeignNameRebuilt | Sources/SLogFileOutput/DefaultLogOutputFileNameProvider.swift:17-35 | The non-log name "7.log" reduces to day 7, and `log_7.log` is returned for it. |
| SLogFileBackend.FileLogBackend.constructor | Sources/SLogFileBackend/FileLogBackend.swift:33-68 | Unset options take their defaults (10 000 lines, 5 MiB, 5 files, `getSign`). The writer continues the highest-indexed log file, or else takes the next name. It appends "\n" to that file. |
| SLogFileBackend.InitialPathIsNewest | Sources/SLogFileBackend/FileLogBackend.swift:47 | The initial file is a log file whose index is at least every listed log file's. It is an existing listed file if and only if some log file is listed. |
| SLogFileBackend.FirstFileOnEmpty | Sources/SLogFileBackend/FileLogBackend.swift:47 | On an empty directory the first file is the index-1 file of today. |
| SLogFileBackend.FileLogBackend.Log | Sources/SLogFileBackend/FileLogBackend.swift:70-83 | The rendered line is buffered, and the buffer is flushed once it holds `maxBufferSize` lines. |
| SLogFileBackend.LogKeepsEveryLine | Sources/SLogFileBackend/FileLogBackend.swift:70-83 | After `log` one of three holds: every earlier line and the new one are still buffered; they are buffered with a failure report after them; or the buffer was emptied and, if pruning kept the current file, that file gained them in order. |
| SLogFileBackend.ZeroLimitLosesBatch | Sources/SLogFileBackend/FileLogBackend.swift:179-201 | With `maxLogFilesCount` 0, a passing flush to a log file in a listable directory empties the buffer and leaves the file it wrote deleted. |
| SLogFileBackend.PruneAllDeletes | Sources/SLogFileBackend/FileLogBackend.swift:212-222 | Pruning to no files deletes every listed log file whose delete does not fail. |
| SLogFileBackend.TwoLinesScenario | Sources/SLogFileBackend/FileLogBackend.swift:66-83 | Take an empty directory and a buffer of two lines. After construction and two `log` calls, the buffer is empty and the only file is the index-1 file, holding "\n", the first line, "\n", the second line and "\n". |
| SLogFileBackend.FileLogBackend.Flush | Sources/SLogFileBackend/FileLogBackend.swift:179-201 | The new buffer, path and directory are exactly `Flushed` of the old ones: rotate if oversize, append the batch, empty the buffer or add a failure report, then prune. |
| SLogFileBackend.Flushed | Sources/SLogFileBackend/FileLogBackend.swift:179-201 | Flushing an empty buffer changes nothing. The directory stays well formed. |
| SLogFileBackend.FlushDeliversOrKeeps | Sources/SLogFileBackend/FileLogBackend.swift:179-201 | Flushing a non-empty buffer moves the writer to the target path. On a passing append the buffer empties, and the file, if kept, gained exactly the buffered lines in order. On a failing append the buffer keeps every line plus a failure report. |
| SLogFileBackend.FailedFlushStaysFull | Sources/SLogFileBackend/FileLogBackend.swift:179-201 | A failed flush of a buffer at its limit keeps every line, adds one report and leaves the buffer above the limit, so the deferred `log` of the report (its limit check at line 79) flushes again; the directory is only pruned. |
| SLogFileBackend.FlushOnlyAppends | Sources/SLogFileBackend/FileLogBackend.swift:179-201 | A flush never rewrites content. Every other surviving file is unchanged and pre-existing, and the target's old content is a prefix of its new one. |
| SLogFileBackend.SoftSizeBound | Sources/SLogFileBackend/FileLogBackend.swift:182-191 | With a directory that can be both resolved and listed, a flushed file exceeds the size limit by at most one batch. |
| SLogFileBackend.TargetPathSpec | Sources/SLogFileBackend/FileLogBackend.swift:182-184 | The writer moves only when the current file is over the limit, and never when the directory cannot be resolved. The new file is the next index of today, above every listed index, and is not listed. |
| SLogFileBackend.RotationKeepsNewFile | Sources/SLogFileBackend/FileLogBackend.swift:182-200 | After a rotation and a passing append, with a limit of at least one file, the new file survives the pruning and holds exactly the flushed lines. |
| SLogFileBackend.FileLogBackend.CreateNextFile | Sources/SLogFileBackend/FileLogBackend.swift:203-210 | The path becomes the next name, or stays when there is none. The buffer is unchanged. |
| SLogFileBackend.FileLogBackend.RemoveExcessFiles | Sources/SLogFileBackend/FileLogBackend.swift:212-222 | The directory becomes `Pruned` of the old one. |
| SLogFileBackend.FileLogBackend.DeleteLowest | Sources/SLogFileBackend/FileLogBackend.swift:213-221 | Popping from the reversed index order deletes the first `Excess` names in index order, lowest first. |
| SLogFileBackend.Excess | Sources/SLogFileBackend/FileLogBackend.swift:214-216 | The number of files to delete is at most the number of log files. For a non-negative limit, min(count, limit) files are kept; a negative limit deletes them all. |
| SLogFileBackend.Pruned | Sources/SLogFileBackend/FileLogBackend.swift:212-222 | Pruning keeps the directory well formed. |
| SLogFileBackend.PrunedSpec | Sources/SLogFileBackend/FileLogBackend.swift:212-222 | A file is gone after pruning if and only if it is an excess file without a delete fault. Kept files are unchanged. |
| SLogFileBackend.ExcessFilesLowest | Sources/SLogFileBackend/FileLogBackend.swift:212-222 | The deleted files are a prefix of the index order, and none has a higher index than any kept one. |
| SLogFileBackend.FewFilesNoExcess | Sources/SLogFileBackend/FileLogBackend.swift:213-216 | Pruning deletes nothing if and only if there is no log file or the log files, foreign names not counted, are no more than the limit. |
| SLogFileBackend.PruneSparesNewest | Sources/SLogFileBackend/FileLogBackend.swift:212-222 | With a limit of at least one, the log file of highest index survives pruning, unchanged. |
| SLogFileBackend.FileLogBackend.RemoveLogs | Sources/SLogFileBackend/FileLogBackend.swift:97-103 | The directory becomes `LogsRemoved` of the old one. |
| SLogFileBackend.LogsRemovedSpec | Sources/SLogFileBackend/FileLogBackend.swift:97-103 | A file is deleted if and only if it is a listed log file dated before the cutoff with no delete fault. Kept files are unchanged. |
| SLogFileOutput.FileLogOutput.constructor | Sources/SLogFileOutput/FileLogOutput.swift:28-56 | Unset options take their defaults (10 000 lines, `getSign`). The file is fixed for the writer's life as the file of the day of `now`. "\n" is appended to it. |
| SLogFileOutput.FileLogOutput.Log | Sources/SLogFileOutput/FileLogOutput.swift:58-71 | The rendered line is buffered, and the buffer is flushed once it holds `maxBufferSize` lines. |
| SLogFileOutput.LogKeepsEveryLine | Sources/SLogFileOutput/FileLogOutput.swift:58-71 | After `log` one of three holds: every line is still buffered; every line is buffered with a failure report after them; or every line was appended to the day's file, in order. |
| SLogFileOutput.FlushedAsWritten | Sources/SLogFileOutput/FileLogOutput.swift:58-71 | Flushing as the code does, with a failed flush of a full buffer followed at once by another flush (at most the given number of rounds), keeps the directory well formed. |
| SLogFileOutput.FaultedFlushNeverSettles | Sources/SLogFileOutput/FileLogOutput.swift:167-183 | As written (the limit check of `log` at lines 67-69 runs again after the report), with a write fault on the day's file and a buffer at its limit, every repeated flush fails, writes nothing and adds one more report: after any number of rounds the buffer is the old lines followed by one report per round. |
| SLogFileOutput.FileLogOutput.Flush | Sources/SLogFileOutput/FileLogOutput.swift:167-183 | The new buffer and directory are exactly `Flushed` of the old ones. |
| SLogFileOutput.FlushDeliversOrKeeps | Sources/SLogFileOutput/FileLogOutput.swift:167-183 | A passing flush empties the buffer and the file gains exactly the buffered lines. A failing flush changes no file and keeps every line plus a failure report. Other files never change. |
| SLogFileOutput.FileLogOutput.RemoveLogs | Sources/SLogFileOutput/FileLogOutput.swift:85-91 | The directory becomes `LogsRemoved` of the old one. |
| SLogFileOutput.LogsRemovedSpec | Sources/SLogFileOutput/FileLogOutput.swift:85-91 | A file is deleted if and only if the directory can be listed, the file is the canonical file of a day before the cutoff, and it has no delete fault. A foreign name that only denotes such a day is kept. Kept files are unchanged. |

## Left out

- `archivedLogs` (copying to a temporary directory and zipping) is not modelled: it is file-system plumbing outside the writers' logic.
- Lifecycle notifications (`didEnterBackground`, `willTerminate`) and `deinit` are not modelled; each of them only calls `flush()`, which is modelled.
- Dispatch queues are modelled as sequential calls. `log` is asynchronous in the code; here it takes effect at once, in call order.
- `SLogFileBackend.Flushed`, `SLogFileOutput.Flushed`: after a failed flush the code logs the failure through `log`, which runs later on the serial queue. These functions append the report line at the end of the flush and stop there. They leave out the buffer-limit check of that deferred `log`: the buffer is still at or above the limit, so the code flushes again at once, fails again under a lasting fault, adds one more report, and repeats without end; the rotating writer also prunes in every round, and may escape only by rotating to a file without the fault. That behaviour is stated separately by `SLogFileBackend.FailedFlushStaysFull` and, for the day-per-file writer, by `SLogFileOutput.FlushedAsWritten` with `SLogFileOutput.FaultedFlushNeverSettles` (see "## Findings").
- Creating the storage directory, and the day-per-file provider's fallback to the working directory, are not modelled; the directory is the given `Disk`.
- The `level` parameter of both `init`s is unused by the code and is left out.
- Date formatting: instants are seconds and days are whole days, with no time zones. The formatters are a decimal day number and its parser. The log-line timestamp formatter is a parameter.
- `LogNameCodec.Encode`: JSON plus base64 is replaced by a reversible stand-in that never contains '.'. Real base64 of this JSON has no '.' either. The stand-in keeps only the properties the writers rely on.
- The UUID fallback name, used when encoding fails, is left out: the stand-in encoding cannot fail.
- `SLogFileBackend.LogKeepsEveryLine`: a passing flush empties the buffer before pruning runs, so the lines it wrote survive only if pruning keeps the current file. The code, and the model with it, loses them in two cases:
  - with `maxLogFilesCount` 0, every file written is deleted at once (`SLogFileBackend.ZeroLimitLosesBatch`);
  - when the directory cannot be listed at a rotation, the listing reads as empty (DefaultFileNameProvider.swift:38-45), the current index as 0 (lines 21-26), and the new file gets index 1 of today. Higher-indexed files already there then outrank it, so with a small limit `removeExcessFiles` (FileLogBackend.swift:212-222) deletes it after every flush, and as it never outgrows the size limit the writer never rotates away.
  The model states what the code does and does not promise the lines survive pruning.
- Sizes are counted in characters, not UTF-8 bytes. Counts, sizes and file indexes are unbounded integers, so `UInt` overflow is not modelled.
- `BackendFileNames.CreateLogFileName`: the file index is a `UInt` in the code (LogName.swift:4), and `getCurrentIndex() + 1` traps when the current index is `UInt.max`, so rotation from such a file crashes. The model's index is a `nat` and the next index always exists.
- `print` diagnostics are left out.
- `BackendFileNames.SortBy` is specified as sorted and a permutation only. Swift's `sorted(by:)` does not fix the order of equal keys, and no property here depends on that order.
- The forced unwrap in the rotating writer's `init` crashes on an unresolvable directory. The constructor requires a resolvable directory instead of modelling the crash.

## Findings

| source | as written | input that shows it | evidently intended | confidence | as-written member | corrected member |
|---|---|---|---|---|---|---|
| Sources/SLogFileOutput/FileLogOutput.swift:176-181 | A failed flush reports through `log`; that `log` (lines 67-69; the same shape in FileLogBackend.swift at lines 79 and 194-197) sees the buffer still at its limit and flushes again, without end while the write fault lasts, adding one report line per round | `maxBufferSize` 1, a write fault on the day's file, one `log` call | One attempt per flush: the report is buffered and the next write waits for the next `log` call or flush | not executed; medium | SLogFileOutput.FaultedFlushNeverSettles | SLogFileOutput.FlushDeliversOrKeeps |
