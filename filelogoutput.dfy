/**
 * The older, day-per-file writer (`FileLogOutput`): the same buffering as the
 * rotating writer, but the file is chosen once, at construction, as the file of that
 * day, and there is no size limit, rotation or file-count limit.
 */
module SLogFileOutput {
  import opened Options
  import opened Seqs
  import opened FileSystem
  import opened LogLine
  import opened OutputFileNames
  import Dates

  const DefaultMaxBufferSize: int := 10_000

  /** The line of the error report a failed flush logs (where `flush()` calls `log`). */
  const FlushErrorLine: nat := 180

  datatype Config = Config(renderer: Renderer, maxBufferSize: int)

  /** What the writer's operations read or change; the file path is fixed. */
  datatype Writer = Writer(buffer: seq<string>, volume: Volume)

  /** The directory's names, or `None` when it cannot be listed. */
  function ListingOf(v: Volume): Option<seq<string>> {
    if v.listable then Some(v.entries) else None
  }

  /** The line a failed flush adds to the buffer. */
  function ErrorLine(c: Config, reason: string, now: Dates.Instant): string {
    Render(c.renderer, Error, Regular(reason), None, "flush()", FlushErrorLine, now)
  }

  /** The writer after `flush()` to the file `path`. */
  function Flushed(c: Config, path: string, w: Writer, now: Dates.Instant): (r: Writer)
    requires WellFormed(w.volume)
    ensures WellFormed(r.volume)
    ensures w.buffer == [] ==> r == w
  {
    if w.buffer == [] then w
    else
      var outcome := AppendOutcome(w.volume, path);
      Writer(if outcome.Pass? then [] else w.buffer + [ErrorLine(c, outcome.reason, now)],
             Appended(w.volume, path, Batch(w.buffer)))
  }

  /** The writer after `log(...)` has buffered `line`: a full buffer is flushed. */
  function Logged(c: Config, path: string, w: Writer, line: string, now: Dates.Instant): (r: Writer)
    requires WellFormed(w.volume)
    ensures WellFormed(r.volume)
  {
    var buffered := w.(buffer := w.buffer + [line]);
    if |buffered.buffer| >= c.maxBufferSize then Flushed(c, path, buffered, now) else buffered
  }

  /** The directory after `removeLogs(olderThan:)`; failed deletes are ignored. */
  function LogsRemoved(v: Volume, cutoff: Dates.Instant): (r: Volume)
    requires WellFormed(v)
    ensures WellFormed(r)
  {
    RemovedAll(v, UrlsOlderThan(ListingOf(v), cutoff))
  }

  /**
   * A flush of a non-empty buffer either delivers it or keeps it: on success the
   * file gains exactly the buffered lines, in order, and the buffer is emptied; on
   * failure nothing is written and the buffer keeps every line plus a failure report.
   */
  lemma FlushDeliversOrKeeps(c: Config, path: string, w: Writer, now: Dates.Instant)
    requires WellFormed(w.volume) && w.buffer != []
    ensures var outcome := AppendOutcome(w.volume, path);
      var r := Flushed(c, path, w, now);
      && (outcome.Pass? ==> r.buffer == [] && path in r.volume.files &&
                             r.volume.files[path] == Content(w.volume, path) + Lines(w.buffer))
      && (outcome.Fail? ==> r.buffer == w.buffer + [ErrorLine(c, outcome.reason, now)] && r.volume == w.volume)
      && (forall n | n != path :: (n in r.volume.files <==> n in w.volume.files))
      && (forall n | n != path && n in w.volume.files :: r.volume.files[n] == w.volume.files[n])
  {
    BatchIsLines(w.buffer);
  }

  /**
   * The flush of the code as written: a failed append reports through `log`, whose
   * buffer-limit check runs once the report is buffered and flushes again when the
   * buffer is still at the limit. `rounds` bounds how many such repeated flushes are
   * followed; the report's timestamp is taken as `now` in every round.
   */
  function FlushedAsWritten(c: Config, path: string, w: Writer, now: Dates.Instant, rounds: nat): (r: Writer)
    requires WellFormed(w.volume)
    ensures WellFormed(r.volume)
    decreases rounds
  {
    var r := Flushed(c, path, w, now);
    if w.buffer != [] && AppendOutcome(w.volume, path).Fail? && |r.buffer| >= c.maxBufferSize && rounds > 0
    then FlushedAsWritten(c, path, r, now, rounds - 1)
    else r
  }

  /** `n` copies of the same line. */
  function Repeated(line: string, n: nat): (r: seq<string>)
    ensures |r| == n && forall i | 0 <= i < n :: r[i] == line
  {
    if n == 0 then [] else Repeated(line, n - 1) + [line]
  }

  /**
   * As written, a write fault on the day's file never lets a flush of a buffer that
   * reached its limit settle: however many rounds are followed, every one fails,
   * writes nothing and adds one more report, and the buffer never empties.
   */
  lemma {:induction false} FaultedFlushNeverSettles(c: Config, path: string, w: Writer, now: Dates.Instant, rounds: nat)
    requires WellFormed(w.volume) && w.buffer != [] && |w.buffer| >= c.maxBufferSize
    requires path in w.volume.faults
    ensures var r := FlushedAsWritten(c, path, w, now, rounds);
      && r.buffer == w.buffer + Repeated(ErrorLine(c, w.volume.faults[path], now), rounds + 1)
      && r.volume == w.volume
    decreases rounds
  {
    var report := ErrorLine(c, w.volume.faults[path], now);
    var r1 := Flushed(c, path, w, now);
    assert r1 == Writer(w.buffer + [report], w.volume);
    if rounds > 0 {
      FaultedFlushNeverSettles(c, path, r1, now, rounds - 1);
      assert w.buffer + [report] + Repeated(report, rounds) == w.buffer + Repeated(report, rounds + 1);
    } else {
      assert Repeated(report, 1) == [report];
    }
  }

  /**
   * No logged line is lost: after `log`, the line and every line buffered before it
   * are either still buffered or have been appended, in order, to the file.
   */
  lemma LogKeepsEveryLine(c: Config, path: string, w: Writer, line: string, now: Dates.Instant)
    requires WellFormed(w.volume)
    ensures var r := Logged(c, path, w, line, now);
      || (r.buffer == w.buffer + [line] && |r.buffer| < c.maxBufferSize && r.volume == w.volume)
      || (exists reason :: r.buffer == w.buffer + [line, ErrorLine(c, reason, now)] && r.volume == w.volume)
      || (r.buffer == [] && path in r.volume.files &&
          r.volume.files[path] == Content(w.volume, path) + Lines(w.buffer + [line]))
  {
    var buffered := w.(buffer := w.buffer + [line]);
    if |buffered.buffer| >= c.maxBufferSize {
      FlushDeliversOrKeeps(c, path, buffered, now);
      var outcome := AppendOutcome(w.volume, path);
      if outcome.Fail? {
        assert w.buffer + [line] + [ErrorLine(c, outcome.reason, now)] == w.buffer + [line, ErrorLine(c, outcome.reason, now)];
      }
    }
  }

  /**
   * `removeLogs(olderThan:)` deletes exactly the listed files that are the canonical
   * file of a day before the cutoff and whose delete does not fail, and leaves every
   * other file as it is. A foreign name that only denotes such a day is kept.
   */
  lemma LogsRemovedSpec(v: Volume, cutoff: Dates.Instant)
    requires WellFormed(v)
    ensures var r := LogsRemoved(v, cutoff);
      && (forall n :: n in r.files <==>
            n in v.files && (n in v.faults || !v.listable || !(Canonical(n) && IsOlder(n, cutoff))))
      && (forall n | n in r.files :: r.files[n] == v.files[n])
  {
    var names := UrlsOlderThan(ListingOf(v), cutoff);
    RemovedAllSpec(v, names);
    RemovedAllOnlyDeletes(v, names);
    if v.listable {
      forall n | n in v.files ensures n in names <==> Canonical(n) && IsOlder(n, cutoff) {
        if Canonical(n) && IsOlder(n, cutoff) {
          var i :| 0 <= i < |v.entries| && v.entries[i] == n;
        }
      }
    }
  }

  class FileLogOutput {
    const disk: Disk
    const config: Config
    const logFilePath: string
    var buffer: seq<string>

    function State(): Writer
      reads this, disk
    {
      Writer(buffer, disk.Snapshot())
    }

    predicate Valid()
      reads this, disk
    {
      disk.Valid()
    }

    /**
     * `init(...)`: the writer's file is that of the day `now` falls on, for its whole
     * life; an empty line is appended to it (a failure to append is ignored).
     */
    constructor (disk: Disk, maxBufferSize: Option<int>, stringifyLevel: Option<Level -> string>,
                 formatTimestamp: Dates.Instant -> string,
                 convertTemplate: (string, seq<string>) -> string,
                 now: Dates.Instant)
      requires disk.Valid()
      modifies disk
      ensures Valid() && this.disk == disk
      ensures config == Config(Renderer(stringifyLevel.GetOr(GetSign), formatTimestamp, convertTemplate), maxBufferSize.GetOr(DefaultMaxBufferSize))
      ensures buffer == []
      ensures logFilePath == NextLogUrl(now)
      ensures disk.Snapshot() == Appended(old(disk.Snapshot()), logFilePath, "\n")
    {
      this.disk := disk;
      config := Config(Renderer(stringifyLevel.GetOr(GetSign), formatTimestamp, convertTemplate), maxBufferSize.GetOr(DefaultMaxBufferSize));
      logFilePath := NextLogUrl(now);
      buffer := [];
      new;
      var _ := disk.Append(logFilePath, "\n");
    }

    /** `log(level:message:source:file:function:line:)`, stamped with the instant `now`. */
    method Log(level: Level, message: Message, source: Option<string>, functionName: string,
               line: nat, now: Dates.Instant)
      requires Valid()
      modifies this, disk
      ensures Valid()
      ensures State() == Logged(config, logFilePath, old(State()),
                                Render(config.renderer, level, message, source, functionName, line, now), now)
    {
      buffer := buffer + [Render(config.renderer, level, message, source, functionName, line, now)];
      if |buffer| >= config.maxBufferSize {
        Flush(now);
      }
    }

    /** `flush()`. */
    method Flush(now: Dates.Instant)
      requires Valid()
      modifies this, disk
      ensures Valid()
      ensures State() == Flushed(config, logFilePath, old(State()), now)
    {
      if buffer == [] {
        return;
      }
      var outcome := disk.Append(logFilePath, Batch(buffer));
      if outcome.Pass? {
        buffer := [];
      } else {
        buffer := buffer + [ErrorLine(config, outcome.reason, now)];
      }
    }

    /** `removeLogs(olderThan:)`: deletes the file of every listed day before `cutoff`. */
    method RemoveLogs(cutoff: Dates.Instant)
      requires Valid()
      modifies disk
      ensures Valid()
      ensures disk.Snapshot() == LogsRemoved(old(disk.Snapshot()), cutoff)
    {
      ghost var v0 := disk.Snapshot();
      var urls := UrlsOlderThan(ListingOf(disk.Snapshot()), cutoff);
      for i := 0 to |urls|
        invariant Valid()
        invariant disk.Snapshot() == RemovedAll(v0, urls[..i])
      {
        assert urls[..i + 1][..i] == urls[..i];
        var _ := disk.Remove(urls[i]);
      }
      assert urls[..|urls|] == urls;
    }
  }
}
