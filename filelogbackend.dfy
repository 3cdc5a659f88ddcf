/**
 * The rotating writer (`FileLogBackend`): log calls render a line into an in-memory
 * buffer; a flush appends the buffered lines to the current log file, first moving
 * on to a new file when the current one has grown past its size limit, and then
 * deletes the lowest-indexed log files beyond the file-count limit.
 *
 * The value-level functions below say what each operation does to a `Writer`
 * (buffer, current path, directory); the class's methods are proved against them.
 */
module SLogFileBackend {
  import opened Options
  import opened Seqs
  import opened FileSystem
  import opened LogLine
  import opened BackendFileNames
  import Dates
  import LogNameCodec

  const DefaultMaxBufferSize: int := 10_000
  const DefaultMaxLogFileSizeInBytes: nat := 5 * 1024 * 1024
  const DefaultMaxLogFilesCount: int := 5

  /** The line of the error report a failed flush logs (where `flush()` calls `log`). */
  const FlushErrorLine: nat := 196

  /** The limits and the rendering, fixed at construction. */
  datatype Config = Config(
    renderer: Renderer,
    maxBufferSize: int,
    maxLogFileSizeInBytes: nat,
    maxLogFilesCount: int)

  /** Everything a writer's operations read or change. */
  datatype Writer = Writer(buffer: seq<string>, logFilePath: string, volume: Volume)

  /** What the file-name provider sees of the directory. */
  function StorageOf(v: Volume): Storage {
    if !v.resolvable then Unresolved
    else if !v.listable then Unlistable
    else Listed(v.entries)
  }

  /** The file a new writer appends to: the highest-indexed log file, else the next name. */
  function InitialPath(v: Volume, now: Dates.Instant): string
    requires v.resolvable
  {
    var urls := UrlsSortedByIndex(StorageOf(v));
    if urls != [] then urls[|urls| - 1]
    else NextLogUrl(StorageOf(v), Dates.DayOf(now)).value
  }

  /** The path after `createNextFile()`: the next name, or the same path when there is none. */
  function NextPath(v: Volume, path: string, now: Dates.Instant): string {
    match NextLogUrl(StorageOf(v), Dates.DayOf(now))
    case Some(url) => url
    case None => path
  }

  /** The path a flush writes to: a new file once the current one is over the size limit. */
  function TargetPath(c: Config, w: Writer, now: Dates.Instant): string {
    if SizeOf(w.volume, w.logFilePath) > c.maxLogFileSizeInBytes then NextPath(w.volume, w.logFilePath, now)
    else w.logFilePath
  }

  /** How many of `count` files are beyond a limit of `max` (none when the limit is not exceeded). */
  function Excess(count: nat, max: int): (e: nat)
    ensures e <= count
    ensures max >= 0 ==> count - e == Min(count, max)
    ensures max < 0 ==> e == count
  {
    if count <= max then 0 else if max < 0 then count else count - max
  }

  /** The names `removeExcessFiles()` deletes, in the order it deletes them: lowest index first. */
  function ExcessFiles(v: Volume, max: int): seq<string> {
    var urls := UrlsSortedByIndex(StorageOf(v));
    urls[..Excess(|urls|, max)]
  }

  /** The directory after `removeExcessFiles()`; failed deletes are ignored. */
  function Pruned(v: Volume, max: int): (r: Volume)
    requires WellFormed(v)
    ensures WellFormed(r)
  {
    RemovedAll(v, ExcessFiles(v, max))
  }

  /** The line a failed flush adds to the buffer: an error-level report of the failure. */
  function ErrorLine(c: Config, reason: string, now: Dates.Instant): string {
    Render(c.renderer, Error, Regular(reason), None, "flush()", FlushErrorLine, now)
  }

  /** The writer after `flush()`. */
  function Flushed(c: Config, w: Writer, now: Dates.Instant): (r: Writer)
    requires WellFormed(w.volume)
    ensures WellFormed(r.volume)
    ensures w.buffer == [] ==> r == w
  {
    if w.buffer == [] then w
    else
      var path := TargetPath(c, w, now);
      var outcome := AppendOutcome(w.volume, path);
      var written := Appended(w.volume, path, Batch(w.buffer));
      var buffer := if outcome.Pass? then [] else w.buffer + [ErrorLine(c, outcome.reason, now)];
      Writer(buffer, path, Pruned(written, c.maxLogFilesCount))
  }

  /** The writer after `log(...)` has buffered `line`: a full buffer is flushed. */
  function Logged(c: Config, w: Writer, line: string, now: Dates.Instant): (r: Writer)
    requires WellFormed(w.volume)
    ensures WellFormed(r.volume)
  {
    var buffered := w.(buffer := w.buffer + [line]);
    if |buffered.buffer| >= c.maxBufferSize then Flushed(c, buffered, now) else buffered
  }

  /** The directory after `removeLogs(olderThan:)`; failed deletes are ignored. */
  function LogsRemoved(v: Volume, cutoff: Dates.Instant): (r: Volume)
    requires WellFormed(v)
    ensures WellFormed(r)
  {
    RemovedAll(v, UrlsOlderThan(StorageOf(v), cutoff))
  }

  /** Deleting one more name of a sequence, as the writer's loops do. */
  lemma RemovedAllStep(v: Volume, names: seq<string>, i: nat)
    requires WellFormed(v) && i < |names|
    ensures RemovedAll(v, names[..i + 1]) == Removed(RemovedAll(v, names[..i]), names[i])
  {
    assert names[..i + 1][..i] == names[..i];
  }

  /**
   * A new writer appends to a log file whose index is at least every listed log
   * file's: an existing one exactly when some log file is listed, else a new name.
   */
  lemma InitialPathIsNewest(v: Volume, now: Dates.Instant)
    requires v.resolvable
    ensures Classify(InitialPath(v, now)).Some?
    ensures forall n | n in Listing(StorageOf(v)) && Classify(n).Some? ::
      Classify(n).value.id.index <= Classify(InitialPath(v, now)).value.id.index
    ensures (exists n | n in Listing(StorageOf(v)) :: Classify(n).Some?) <==> InitialPath(v, now) in Listing(StorageOf(v))
  {
    var st := StorageOf(v);
    if UrlsSortedByIndex(st) != [] {
      LastIsCurrent(st);
      CurrentIndexIsMax(st);
    } else {
      UrlsSortedByIndexSpec(st);
      NextLogUrlIsFresh(st, Dates.DayOf(now));
    }
  }

  /**
   * A flush moves to a new file only when the current one is over the size limit;
   * the new file is the next name, of today's date, with an index above every
   * listed log file's, so it is not an existing listed file.
   */
  lemma TargetPathSpec(c: Config, w: Writer, now: Dates.Instant)
    ensures TargetPath(c, w, now) != w.logFilePath ==> SizeOf(w.volume, w.logFilePath) > c.maxLogFileSizeInBytes
    ensures !w.volume.resolvable ==> TargetPath(c, w, now) == w.logFilePath
    ensures SizeOf(w.volume, w.logFilePath) > c.maxLogFileSizeInBytes && w.volume.resolvable ==>
      var p := TargetPath(c, w, now);
      var st := StorageOf(w.volume);
      && Classify(p) == Some(LogFile(p, LogNameCodec.LogName(CurrentIndex(st) + 1, Dates.FormatDay(Dates.DayOf(now))), Dates.DayOf(now)))
      && (forall n | n in Listing(st) && Classify(n).Some? :: Classify(n).value.id.index < Classify(p).value.id.index)
      && p !in Listing(st)
  {
    NextLogUrlIsFresh(StorageOf(w.volume), Dates.DayOf(now));
  }

  /**
   * A flush of a non-empty buffer either delivers it or keeps it: when the append
   * succeeds the buffer is emptied and the target file gains the buffered lines, each
   * followed by a newline, in order; when it fails the buffer keeps every line and
   * gains a report of the failure.
   */
  lemma FlushDeliversOrKeeps(c: Config, w: Writer, now: Dates.Instant)
    requires WellFormed(w.volume) && w.buffer != []
    ensures var p := TargetPath(c, w, now);
      var outcome := AppendOutcome(w.volume, p);
      var r := Flushed(c, w, now);
      && r.logFilePath == p
      && (outcome.Pass? ==> r.buffer == [])
      && (outcome.Pass? && p in r.volume.files ==> r.volume.files[p] == Content(w.volume, p) + Lines(w.buffer))
      && (outcome.Fail? ==> r.buffer == w.buffer + [ErrorLine(c, outcome.reason, now)])
  {
    var p := TargetPath(c, w, now);
    var written := Appended(w.volume, p, Batch(w.buffer));
    RemovedAllOnlyDeletes(written, ExcessFiles(written, c.maxLogFilesCount));
    BatchIsLines(w.buffer);
  }

  /**
   * A flush of a full buffer whose append fails leaves the buffer full: it keeps
   * every line, gains one report, and the deferred `log` of that report finds it at
   * or above the limit again. The directory is only pruned.
   */
  lemma FailedFlushStaysFull(c: Config, w: Writer, now: Dates.Instant)
    requires WellFormed(w.volume) && w.buffer != [] && |w.buffer| >= c.maxBufferSize
    requires TargetPath(c, w, now) in w.volume.faults
    ensures var r := Flushed(c, w, now);
      && r.buffer == w.buffer + [ErrorLine(c, w.volume.faults[TargetPath(c, w, now)], now)]
      && |r.buffer| > c.maxBufferSize
      && r.volume == Pruned(w.volume, c.maxLogFilesCount)
  {
  }

  /**
   * A flush never rewrites what a file already holds: only the target file may
   * change or appear, it only grows, and every other file that is left keeps its content.
   */
  lemma FlushOnlyAppends(c: Config, w: Writer, now: Dates.Instant)
    requires WellFormed(w.volume)
    ensures var r := Flushed(c, w, now);
      && (forall n | n in r.volume.files && n != r.logFilePath :: n in w.volume.files && r.volume.files[n] == w.volume.files[n])
      && (r.logFilePath in r.volume.files ==> Content(w.volume, r.logFilePath) <= r.volume.files[r.logFilePath])
  {
    if w.buffer != [] {
      var p := TargetPath(c, w, now);
      var written := Appended(w.volume, p, Batch(w.buffer));
      RemovedAllOnlyDeletes(written, ExcessFiles(written, c.maxLogFilesCount));
    }
  }

  /**
   * The size limit is soft: a file is never written past the limit by more than one
   * batch. (With a directory that cannot be resolved there is no next name, and with
   * one that cannot be listed the next name may be an existing file, so the bound
   * needs a directory that is both resolvable and listable.)
   */
  lemma SoftSizeBound(c: Config, w: Writer, now: Dates.Instant)
    requires WellFormed(w.volume) && w.volume.resolvable && w.volume.listable
    ensures var r := Flushed(c, w, now);
      r.logFilePath in r.volume.files && w.buffer != [] ==>
        SizeOf(r.volume, r.logFilePath) <= c.maxLogFileSizeInBytes + |Batch(w.buffer)|
  {
    if w.buffer != [] {
      var p := TargetPath(c, w, now);
      var written := Appended(w.volume, p, Batch(w.buffer));
      RemovedAllOnlyDeletes(written, ExcessFiles(written, c.maxLogFilesCount));
      TargetPathSpec(c, w, now);
      if p != w.logFilePath {
        assert p !in w.volume.files;
      }
    }
  }

  /**
   * `removeExcessFiles()` deletes exactly the `Excess` lowest-indexed log files
   * (a delete that fails leaves its file) and keeps every other file as it is.
   */
  lemma PrunedSpec(v: Volume, max: int)
    requires WellFormed(v)
    ensures var r := Pruned(v, max);
      && (forall n :: n in r.files <==> n in v.files && (n !in ExcessFiles(v, max) || n in v.faults))
      && (forall n | n in r.files :: r.files[n] == v.files[n])
  {
    var names := ExcessFiles(v, max);
    RemovedAllSpec(v, names);
    RemovedAllOnlyDeletes(v, names);
  }

  /**
   * The files `removeExcessFiles()` deletes are the lowest-indexed log files, as
   * many as exceed the limit, so the `maxLogFilesCount` highest-indexed ones are kept.
   */
  lemma ExcessFilesLowest(v: Volume, max: int)
    ensures var urls := UrlsSortedByIndex(StorageOf(v));
      var e := Excess(|urls|, max);
      && ExcessFiles(v, max) == urls[..e]
      && (forall i, j | 0 <= i < e <= j < |urls| ::
            Classify(urls[i]).Some? && Classify(urls[j]).Some? &&
            Classify(urls[i]).value.id.index <= Classify(urls[j]).value.id.index)
  {
    var st := StorageOf(v);
    IsIndexListing(st);
    ListingAscends(UrlsSortedByIndex(st), IndexOrder(st), Listing(st));
  }

  /**
   * With a limit of at least one file, pruning spares a log file whose index is
   * above every other listed log file's.
   */
  lemma PruneSparesNewest(v: Volume, max: int, p: string)
    requires WellFormed(v) && v.resolvable && v.listable && max >= 1
    requires p in v.files && Classify(p).Some?
    requires forall n | n in v.entries && Classify(n).Some? && n != p ::
      Classify(n).value.id.index < Classify(p).value.id.index
    ensures p in Pruned(v, max).files && Pruned(v, max).files[p] == v.files[p]
  {
    NewestNotExcess(v, max, p);
    PrunedSpec(v, max);
  }

  lemma NewestNotExcess(v: Volume, max: int, p: string)
    requires WellFormed(v) && v.resolvable && v.listable && max >= 1
    requires p in v.entries && Classify(p).Some?
    requires forall n | n in v.entries && Classify(n).Some? && n != p ::
      Classify(n).value.id.index < Classify(p).value.id.index
    ensures p !in ExcessFiles(v, max)
  {
    var st := StorageOf(v);
    assert Listing(st) == v.entries;
    var urls := UrlsSortedByIndex(st);
    NewestIsLast(st, p);
    var e := Excess(|urls|, max);
    assert e <= |urls| - 1;
    assert ExcessFiles(v, max) == urls[..e];
    assert forall k | 0 <= k < e :: urls[k] != p;
  }

  /**
   * When a flush moves to a new file and the append succeeds, the new file survives
   * the pruning that follows (with a limit of at least one file) and holds exactly
   * the flushed lines.
   */
  lemma RotationKeepsNewFile(c: Config, w: Writer, now: Dates.Instant)
    requires WellFormed(w.volume) && w.volume.resolvable && w.volume.listable && w.buffer != []
    requires SizeOf(w.volume, w.logFilePath) > c.maxLogFileSizeInBytes && c.maxLogFilesCount >= 1
    requires AppendOutcome(w.volume, TargetPath(c, w, now)).Pass?
    ensures var r := Flushed(c, w, now);
      r.logFilePath in r.volume.files && r.volume.files[r.logFilePath] == Lines(w.buffer)
  {
    var p := TargetPath(c, w, now);
    TargetPathSpec(c, w, now);
    var written := Appended(w.volume, p, Batch(w.buffer));
    assert p !in w.volume.files;
    forall n | n in written.entries && Classify(n).Some? && n != p
      ensures Classify(n).value.id.index < Classify(p).value.id.index
    {
      assert n in written.files;
      assert n in w.volume.entries;
    }
    PruneSparesNewest(written, c.maxLogFilesCount, p);
    BatchIsLines(w.buffer);
  }

  /**
   * `removeLogs(olderThan:)` deletes exactly the listed log files dated before the
   * cutoff whose delete does not fail, and leaves every other file as it is.
   */
  lemma LogsRemovedSpec(v: Volume, cutoff: Dates.Instant)
    requires WellFormed(v)
    ensures var r := LogsRemoved(v, cutoff);
      && (forall n :: n in r.files <==> n in v.files && (n in v.faults || !v.resolvable || !v.listable || !IsOlder(n, cutoff)))
      && (forall n | n in r.files :: r.files[n] == v.files[n])
  {
    var names := UrlsOlderThan(StorageOf(v), cutoff);
    RemovedAllSpec(v, names);
    RemovedAllOnlyDeletes(v, names);
  }

  /**
   * After `log`, the line and every line buffered before it are either still
   * buffered (below the limit, or with a report of a failed flush after them), or the
   * buffer was emptied and, if pruning kept the current file, that file gained them
   * in order. Pruning may delete the file just written (`ZeroLimitLosesBatch`).
   */
  lemma LogKeepsEveryLine(c: Config, w: Writer, line: string, now: Dates.Instant)
    requires WellFormed(w.volume)
    ensures var r := Logged(c, w, line, now);
      || (r.buffer == w.buffer + [line] && |r.buffer| < c.maxBufferSize && r.volume == w.volume)
      || (exists reason :: r.buffer == w.buffer + [line, ErrorLine(c, reason, now)])
      || (r.buffer == [] &&
           (r.logFilePath in r.volume.files ==>
              r.volume.files[r.logFilePath] == Content(w.volume, r.logFilePath) + Lines(w.buffer + [line])))
  {
    var buffered := w.(buffer := w.buffer + [line]);
    if |buffered.buffer| >= c.maxBufferSize {
      FlushDeliversOrKeeps(c, buffered, now);
      var outcome := AppendOutcome(w.volume, TargetPath(c, buffered, now));
      if outcome.Fail? {
        assert w.buffer + [line] + [ErrorLine(c, outcome.reason, now)] == w.buffer + [line, ErrorLine(c, outcome.reason, now)];
      }
    }
  }
  /**
   * With a limit of no files, a passing flush to a log file empties the buffer and
   * then prunes the very file it wrote: the batch is gone.
   */
  lemma ZeroLimitLosesBatch(c: Config, w: Writer, now: Dates.Instant)
    requires WellFormed(w.volume) && w.buffer != [] && c.maxLogFilesCount == 0
    requires w.volume.resolvable && w.volume.listable
    requires Classify(TargetPath(c, w, now)).Some?
    requires AppendOutcome(w.volume, TargetPath(c, w, now)).Pass?
    ensures var r := Flushed(c, w, now);
      r.buffer == [] && r.logFilePath !in r.volume.files
  {
    var p := TargetPath(c, w, now);
    PruneAllDeletes(Appended(w.volume, p, Batch(w.buffer)), p);
  }

  /** Pruning to no files deletes every listed log file whose delete does not fail. */
  lemma PruneAllDeletes(v: Volume, p: string)
    requires WellFormed(v) && v.resolvable && v.listable
    requires p in v.files && p !in v.faults && Classify(p).Some?
    ensures p !in Pruned(v, 0).files
  {
    UrlsSortedByIndexSpec(StorageOf(v));
    assert p in ExcessFiles(v, 0);
    PrunedSpec(v, 0);
  }


  /**
   * Pruning deletes nothing exactly when there is no log file or the log files
   * (foreign names not counted) are no more than the limit.
   */
  lemma FewFilesNoExcess(v: Volume, max: int)
    ensures var urls := UrlsSortedByIndex(StorageOf(v));
      ExcessFiles(v, max) == [] <==> urls == [] || |urls| <= max
  {
    var urls := UrlsSortedByIndex(StorageOf(v));
    assert |ExcessFiles(v, max)| == Excess(|urls|, max);
  }

  /** A directory that can be resolved and listed and holds nothing. */
  const EmptyDirectory: Volume := Volume([], map[], map[], true, true)

  /**
   * Starting on an empty directory with a buffer of two lines, the second `log`
   * flushes both lines into the first log file, after the empty line that
   * construction wrote.
   */
  lemma TwoLinesScenario(c: Config, first: string, second: string, now: Dates.Instant)
    requires c.maxBufferSize == 2 && c.maxLogFileSizeInBytes >= 1 && c.maxLogFilesCount >= 1
    ensures var p := FirstFile(now);
      var started := Writer([], p, Appended(EmptyDirectory, p, "\n"));
      Logged(c, Logged(c, started, first, now), second, now) ==
        Writer([], p, OneFile(p, "\n" + first + "\n" + second + "\n"))
  {
    var p := FirstFile(now);
    StartOnEmpty(p);
    LogBelowLimit(c, Writer([], p, OneFile(p, "\n")), first, now);
    SecondLineFlushes(c, p, first, second, now);
  }

  /** The second line fills a buffer of two, and both lines reach the file. */
  lemma SecondLineFlushes(c: Config, p: string, first: string, second: string, now: Dates.Instant)
    requires c.maxBufferSize == 2 && c.maxLogFileSizeInBytes >= 1 && c.maxLogFilesCount >= 1
    ensures Logged(c, Writer([first], p, OneFile(p, "\n")), second, now) ==
      Writer([], p, OneFile(p, "\n" + first + "\n" + second + "\n"))
  {
    LogFills(c, first, second, p, OneFile(p, "\n"), now);
    FlushTwoLines(c, p, first, second, now);
  }

  /** Flushing two lines into a file holding an empty line appends both. */
  lemma FlushTwoLines(c: Config, p: string, first: string, second: string, now: Dates.Instant)
    requires c.maxLogFileSizeInBytes >= 1 && c.maxLogFilesCount >= 1
    ensures Flushed(c, Writer([first, second], p, OneFile(p, "\n")), now) ==
      Writer([], p, OneFile(p, "\n" + first + "\n" + second + "\n"))
  {
    FlushOneFile(c, p, "\n", [first, second], now);
    TwoLines(first, second);
    assert "\n" + Batch([first, second]) == "\n" + first + "\n" + second + "\n";
  }

  /** The name of the first log file of the day `now` falls on. */
  function FirstFile(now: Dates.Instant): string {
    LogNameCodec.Encode(LogNameCodec.LogName(1, Dates.FormatDay(Dates.DayOf(now))))
  }

  /** On an empty directory a new writer starts the log file with index 1 of the day. */
  lemma FirstFileOnEmpty(now: Dates.Instant)
    ensures InitialPath(EmptyDirectory, now) == FirstFile(now)
  {
    assert UrlsSortedByIndex(StorageOf(EmptyDirectory)) == [];
  }

  /** Construction on an empty directory leaves the one file holding an empty line. */
  lemma StartOnEmpty(p: string)
    ensures Appended(EmptyDirectory, p, "\n") == OneFile(p, "\n")
  {
  }

  /** A `log` that leaves the buffer below its limit only buffers the line. */
  lemma LogBelowLimit(c: Config, w: Writer, line: string, now: Dates.Instant)
    requires WellFormed(w.volume) && |w.buffer| + 1 < c.maxBufferSize
    ensures Logged(c, w, line, now) == w.(buffer := w.buffer + [line])
  {
  }

  /** With a limit of two lines, the second `log` flushes the buffer, both lines included. */
  lemma LogFills(c: Config, first: string, second: string, p: string, v: Volume, now: Dates.Instant)
    requires WellFormed(v) && c.maxBufferSize == 2
    ensures Logged(c, Writer([first], p, v), second, now) == Flushed(c, Writer([first, second], p, v), now)
  {
    assert [first] + [second] == [first, second];
  }

  /** The batch of two lines. */
  lemma TwoLines(first: string, second: string)
    ensures Batch([first, second]) == first + "\n" + second + "\n"
  {
    BatchIsLines([first, second]);
    assert [first, second][1..] == [second];
    assert Lines([second]) == second + "\n" + Lines([]);
  }

  /** A listable directory holding the one file `p`. */
  function OneFile(p: string, content: string): Volume {
    Volume([p], map[p := content], map[], true, true)
  }

  /** Flushing to the only file of a directory, below the size limit, appends the batch to it. */
  lemma FlushOneFile(c: Config, p: string, content: string, lines: seq<string>, now: Dates.Instant)
    requires lines != [] && |content| <= c.maxLogFileSizeInBytes && c.maxLogFilesCount >= 1
    ensures Flushed(c, Writer(lines, p, OneFile(p, content)), now) == Writer([], p, OneFile(p, content + Batch(lines)))
  {
    var w := Writer(lines, p, OneFile(p, content));
    assert TargetPath(c, w, now) == p;
    var v2 := Appended(OneFile(p, content), p, Batch(lines));
    assert v2 == OneFile(p, content + Batch(lines));
    assert |UrlsSortedByIndex(StorageOf(v2))| <= |v2.entries|;
    FewFilesNoExcess(v2, c.maxLogFilesCount);
  }

  class FileLogBackend {
    const disk: Disk
    const config: Config
    var logFilePath: string
    var buffer: seq<string>

    function State(): Writer
      reads this, disk
    {
      Writer(buffer, logFilePath, disk.Snapshot())
    }

    predicate Valid()
      reads this, disk
    {
      disk.Valid()
    }

    /**
     * `init(...)`: unset options take their defaults; the writer continues the
     * highest-indexed log file, or starts the next one, and appends an empty line to
     * it (a failure to append is ignored). A directory that cannot be resolved makes
     * the forced unwrap of the next name fail, so it is excluded.
     */
    constructor (disk: Disk, maxBufferSize: Option<int>, stringifyLevel: Option<Level -> string>,
                 formatTimestamp: Dates.Instant -> string,
                 convertTemplate: (string, seq<string>) -> string,
                 maxLogFileSizeInBytes: Option<nat>, maxLogFilesCount: Option<int>,
                 now: Dates.Instant)
      requires disk.Valid() && disk.resolvable
      modifies disk
      ensures Valid() && this.disk == disk
      ensures config == Config(
        Renderer(stringifyLevel.GetOr(GetSign), formatTimestamp, convertTemplate),
        maxBufferSize.GetOr(DefaultMaxBufferSize),
        maxLogFileSizeInBytes.GetOr(DefaultMaxLogFileSizeInBytes),
        maxLogFilesCount.GetOr(DefaultMaxLogFilesCount))
      ensures buffer == []
      ensures logFilePath == InitialPath(old(disk.Snapshot()), now)
      ensures disk.Snapshot() == Appended(old(disk.Snapshot()), logFilePath, "\n")
    {
      this.disk := disk;
      config := Config(
        Renderer(stringifyLevel.GetOr(GetSign), formatTimestamp, convertTemplate),
        maxBufferSize.GetOr(DefaultMaxBufferSize),
        maxLogFileSizeInBytes.GetOr(DefaultMaxLogFileSizeInBytes),
        maxLogFilesCount.GetOr(DefaultMaxLogFilesCount));
      buffer := [];
      var path := InitialPath(disk.Snapshot(), now);
      logFilePath := path;
      new;
      var _ := disk.Append(path, "\n");
    }

    /** `log(level:message:source:file:function:line:)`, stamped with the instant `now`. */
    method Log(level: Level, message: Message, source: Option<string>, functionName: string,
               line: nat, now: Dates.Instant)
      requires Valid()
      modifies this, disk
      ensures Valid()
      ensures State() == Logged(config, old(State()),
                                Render(config.renderer, level, message, source, functionName, line, now), now)
    {
      buffer := buffer + [Render(config.renderer, level, message, source, functionName, line, now)];
      if |buffer| >= config.maxBufferSize {
        Flush(now);
      }
    }

    /** `flush()`. */
    method Flush(now: Dates.Instant)
      requires Valid()
      modifies this, disk
      ensures Valid()
      ensures State() == Flushed(config, old(State()), now)
    {
      if buffer == [] {
        return;
      }
      ghost var w0 := State();
      if disk.FileSize(logFilePath) > config.maxLogFileSizeInBytes {
        CreateNextFile(now);
      }
      assert logFilePath == TargetPath(config, w0, now);
      var outcome := disk.Append(logFilePath, Batch(buffer));
      ghost var written := disk.Snapshot();
      if outcome.Pass? {
        buffer := [];
      }
      RemoveExcessFiles();
      assert disk.Snapshot() == Pruned(written, config.maxLogFilesCount);
      if outcome.Fail? {
        buffer := buffer + [ErrorLine(config, outcome.reason, now)];
      }
    }

    /** `createNextFile()`: only the current path changes. */
    method CreateNextFile(now: Dates.Instant)
      modifies this
      ensures logFilePath == NextPath(disk.Snapshot(), old(logFilePath), now)
      ensures buffer == old(buffer)
    {
      var next := NextLogUrl(StorageOf(disk.Snapshot()), Dates.DayOf(now));
      if next.Some? {
        logFilePath := next.value;
      }
    }

    /** `removeExcessFiles()`: deletes the lowest-indexed log files beyond the count limit. */
    method RemoveExcessFiles()
      requires Valid()
      modifies disk
      ensures Valid()
      ensures disk.Snapshot() == Pruned(old(disk.Snapshot()), config.maxLogFilesCount)
    {
      var urls := UrlsSortedByIndex(StorageOf(disk.Snapshot()));
      DeleteLowest(urls);
    }

    /**
     * The loop of `removeExcessFiles()`: pops the lowest-indexed names off the
     * reversed index order, one per excess file, and deletes each.
     */
    method DeleteLowest(urls: seq<string>)
      requires Valid()
      modifies disk
      ensures Valid()
      ensures disk.Snapshot() == RemovedAll(old(disk.Snapshot()), urls[..Excess(|urls|, config.maxLogFilesCount)])
    {
      ghost var v0 := disk.Snapshot();
      ghost var e := Excess(|urls|, config.maxLogFilesCount);
      var logFiles := Reversed(urls);
      var extraFilesCount := |logFiles| - config.maxLogFilesCount;
      while extraFilesCount > 0
        invariant Valid()
        invariant |logFiles| <= |urls| && |urls| - |logFiles| <= e
        invariant logFiles != [] ==> extraFilesCount == |logFiles| - config.maxLogFilesCount
        invariant forall i | 0 <= i < |logFiles| :: logFiles[i] == urls[|urls| - 1 - i]
        invariant disk.Snapshot() == RemovedAll(v0, urls[..|urls| - |logFiles|])
        decreases extraFilesCount
      {
        if logFiles != [] {
          var urlToRemove := logFiles[|logFiles| - 1];
          logFiles := logFiles[..|logFiles| - 1];
          RemovedAllStep(v0, urls, |urls| - 1 - |logFiles|);
          var _ := disk.Remove(urlToRemove);
        }
        extraFilesCount := extraFilesCount - 1;
      }
    }

    /** `removeLogs(olderThan:)`: deletes every listed log file dated before `cutoff`. */
    method RemoveLogs(cutoff: Dates.Instant)
      requires Valid()
      modifies disk
      ensures Valid()
      ensures disk.Snapshot() == LogsRemoved(old(disk.Snapshot()), cutoff)
    {
      ghost var v0 := disk.Snapshot();
      var urls := UrlsOlderThan(StorageOf(disk.Snapshot()), cutoff);
      for i := 0 to |urls|
        invariant Valid()
        invariant disk.Snapshot() == RemovedAll(v0, urls[..i])
      {
        RemovedAllStep(v0, urls, i);
        var _ := disk.Remove(urls[i]);
      }
      assert urls[..|urls|] == urls;
    }
  }
}
