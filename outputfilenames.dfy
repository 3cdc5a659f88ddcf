/**
 * The file-name provider of the older, day-per-file writer
 * (`DefaultLogOutputFileNameProvider`): one file per calendar day, named
 * `log_<date>.log`. Pure functions of the current instant and of a listing of the
 * storage directory.
 */
module OutputFileNames {
  import opened Options
  import opened Strings
  import opened Seqs
  import Dates

  const Prefix: string := "log_"
  const Extension: string := ".log"

  /** `createLogFileName(with:)`: the file that holds the logs of `day`. */
  function CreateLogFileName(day: Dates.Day): string {
    Prefix + Dates.FormatDay(day) + Extension
  }

  /** `extractDateStringFromFileName(_:)`: every `log_`, then every `.log`, removed. */
  function ExtractDateString(fileName: string): string {
    RemoveAll(RemoveAll(fileName, Prefix), Extension)
  }

  /** The day a listed name denotes once its date string is extracted, if it parses. */
  function ListedDay(fileName: string): Option<Dates.Day> {
    Dates.ParseDay(ExtractDateString(fileName))
  }

  /** A string in which character `c` never appears contains no pattern that holds `c`. */
  lemma AbsentCharNoMatch(s: string, p: string, k: nat)
    requires k < |p|
    requires forall i | 0 <= i < |s| :: s[i] != p[k]
    ensures !Occurs(s, p)
  {
    forall i: nat | i <= |s| ensures !MatchAt(s, i, p) {
      if i + |p| <= |s| {
        assert s[i..i + |p|][k] == s[i + k];
      }
    }
  }

  /** Removing `log_` from a run of digits followed by `.log` changes nothing. */
  lemma StripPrefix(d: string)
    requires AllDigits(d)
    ensures RemoveAll(d + Extension, Prefix) == d + Extension
  {
    var rest := d + Extension;
    forall i | 0 <= i < |rest| ensures rest[i] != Prefix[3] {
      if i < |d| {
        assert IsDigit(rest[i]);
      }
    }
    AbsentCharNoMatch(rest, Prefix, 3);
    RemoveAllAbsent(rest, Prefix);
  }

  /** Removing `.log` from a run of digits followed by `.log` leaves the digits. */
  lemma StripExtension(d: string)
    requires AllDigits(d)
    ensures RemoveAll(d + Extension, Extension) == d
  {
    forall i: nat | i < |d| ensures !MatchAt(d + Extension, i, Extension) {
      assert IsDigit((d + Extension)[i]);
      if i + |Extension| <= |d + Extension| {
        assert (d + Extension)[i..i + |Extension|][0] == (d + Extension)[i];
      }
    }
    RemoveAllTrailing(d, Extension);
  }

  /** Extracting the date string of a created name gives back the formatted day. */
  lemma ExtractCreated(day: Dates.Day)
    ensures ExtractDateString(CreateLogFileName(day)) == Dates.FormatDay(day)
    ensures ListedDay(CreateLogFileName(day)) == Some(day)
  {
    var d := Dates.FormatDay(day);
    assert CreateLogFileName(day) == Prefix + (d + Extension);
    RemoveAllLeading(Prefix, d + Extension);
    StripPrefix(d);
    StripExtension(d);
  }

  /** Two days share a file exactly when they are the same day. */
  lemma CreateLogFileNameInjective(a: Dates.Day, b: Dates.Day)
    ensures CreateLogFileName(a) == CreateLogFileName(b) <==> a == b
  {
    ExtractCreated(a);
    ExtractCreated(b);
  }

  /** `nextLogUrl()`: the file of the day `now` falls on. */
  function NextLogUrl(now: Dates.Instant): string {
    CreateLogFileName(Dates.DayOf(now))
  }

  /** Two instants log into the same file exactly when they fall on the same day. */
  lemma NextLogUrlPerDay(s: Dates.Instant, t: Dates.Instant)
    ensures NextLogUrl(s) == NextLogUrl(t) <==> Dates.DayOf(s) == Dates.DayOf(t)
    ensures ListedDay(NextLogUrl(t)) == Some(Dates.DayOf(t))
  {
    CreateLogFileNameInjective(Dates.DayOf(s), Dates.DayOf(t));
    ExtractCreated(Dates.DayOf(t));
  }

  /** A listed name whose extracted date parses to a day before `cutoff`. */
  predicate IsOlder(fileName: string, cutoff: Dates.Instant) {
    match ListedDay(fileName)
    case Some(d) => Dates.StartOfDay(d) < cutoff
    case None => false
  }

  /**
   * The pipeline of `getUrlsOfFilesOlderThan(_:)` over the listed names: extract,
   * parse, keep the days before `cutoff`, and rebuild each day's file name.
   */
  function Rebuilt(names: seq<string>, cutoff: Dates.Instant): (urls: seq<string>)
    ensures |urls| <= |names|
    ensures forall i | 0 <= i < |urls| ::
      ListedDay(urls[i]).Some? && urls[i] == CreateLogFileName(ListedDay(urls[i]).value) && IsOlder(urls[i], cutoff)
    ensures forall i | 0 <= i < |names| && IsOlder(names[i], cutoff) ::
      CreateLogFileName(ListedDay(names[i]).value) in urls
  {
    if names == [] then []
    else
      var rest := Rebuilt(names[1..], cutoff);
      assert forall i | 1 <= i < |names| :: names[i] == names[1..][i - 1];
      match ListedDay(names[0])
      case Some(d) =>
        if Dates.StartOfDay(d) < cutoff then
          ExtractCreated(d);
          [CreateLogFileName(d)] + rest
        else rest
      case None => rest
  }

  /** Every rebuilt URL comes from a listed name dated before the cutoff. */
  lemma {:induction false} RebuiltFromListed(names: seq<string>, cutoff: Dates.Instant)
    ensures forall u | u in Rebuilt(names, cutoff) :: exists j | 0 <= j < |names| ::
      IsOlder(names[j], cutoff) && u == CreateLogFileName(ListedDay(names[j]).value)
  {
    if names != [] {
      RebuiltFromListed(names[1..], cutoff);
      forall u | u in Rebuilt(names, cutoff)
        ensures exists j | 0 <= j < |names| ::
          IsOlder(names[j], cutoff) && u == CreateLogFileName(ListedDay(names[j]).value)
      {
        if u in Rebuilt(names[1..], cutoff) {
          var k :| 0 <= k < |names[1..]| && IsOlder(names[1..][k], cutoff)
            && u == CreateLogFileName(ListedDay(names[1..][k]).value);
          assert names[k + 1] == names[1..][k];
        } else {
          assert IsOlder(names[0], cutoff) && u == CreateLogFileName(ListedDay(names[0]).value);
        }
      }
    }
  }

  /**
   * `getUrlsOfFilesOlderThan(_:)`: `listing` is the directory's names, or `None` when
   * it cannot be listed, which gives no URLs.
   */
  function UrlsOlderThan(listing: Option<seq<string>>, cutoff: Dates.Instant): (urls: seq<string>)
    ensures listing.None? ==> urls == []
    ensures forall i | 0 <= i < |urls| :: IsOlder(urls[i], cutoff)
    ensures listing.Some? ==> forall i | 0 <= i < |listing.value| && IsOlder(listing.value[i], cutoff) ::
      CreateLogFileName(ListedDay(listing.value[i]).value) in urls
    ensures listing.Some? ==> forall u | u in urls :: exists j | 0 <= j < |listing.value| ::
      IsOlder(listing.value[j], cutoff) && u == CreateLogFileName(ListedDay(listing.value[j]).value)
  {
    match listing
    case None => []
    case Some(names) => RebuiltFromListed(names, cutoff); Rebuilt(names, cutoff)
  }

  /** A name that is the canonical file name of the day it denotes. */
  predicate Canonical(fileName: string) {
    ListedDay(fileName).Some? && fileName == CreateLogFileName(ListedDay(fileName).value)
  }

  /**
   * When every listed name that denotes a day is that day's canonical file name,
   * the rebuilt URLs are exactly the older listed names, in listing order.
   */
  lemma {:induction false} RebuiltCanonical(names: seq<string>, cutoff: Dates.Instant)
    requires forall i | 0 <= i < |names| && ListedDay(names[i]).Some? :: Canonical(names[i])
    ensures Rebuilt(names, cutoff) == Filter(names, n => IsOlder(n, cutoff))
  {
    if names != [] {
      var tail := names[1..];
      assert forall i | 0 <= i < |tail| :: tail[i] == names[i + 1];
      RebuiltCanonical(tail, cutoff);
      assert Filter(names, n => IsOlder(n, cutoff)) ==
        (if IsOlder(names[0], cutoff) then [names[0]] else []) + Filter(tail, n => IsOlder(n, cutoff));
    }
  }

  /**
   * A name that is not a log file's but reduces to a date string yields the URL of
   * the canonical file of that day, which need not exist.
   */
  lemma ForeignNameRebuilt()
    ensures ListedDay("7.log") == Some(7)
    ensures UrlsOlderThan(Some(["7.log"]), Dates.StartOfDay(8)) == ["log_7.log"]
  {
    assert "7.log" == "7" + Extension;
    StripPrefix("7");
    StripExtension("7");
    assert DigitsValue("7") == 7 by {
      assert "7"[..0] == [];
    }
    assert Dates.FormatDay(7) == "7";
    assert CreateLogFileName(7) == "log_7.log";
  }
}
