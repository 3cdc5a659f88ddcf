/**
 * Dates as the logger sees them. An instant is a number of seconds since the epoch
 * (time zones are not modelled); a day is a number of days since the epoch. The
 * date formatters become `FormatDay`/`ParseDay`, a rendering of a day and a parser
 * that reads it back; the stand-in rendering is the day number in decimal.
 */
module Dates {
  import opened Options
  import Strings

  /** Seconds since the epoch (Foundation's `Date`). */
  type Instant = nat

  /** Days since the epoch: what a day-precision date string denotes. */
  type Day = nat

  const SecondsPerDay: nat := 86400

  /** The first instant of day `d` (what a day-precision formatter parses a date string to). */
  function StartOfDay(d: Day): Instant {
    d * SecondsPerDay
  }

  /** The day an instant falls on (what a day-precision formatter renders of an instant). */
  function DayOf(t: Instant): (d: Day)
    ensures StartOfDay(d) <= t < StartOfDay(d + 1)
  {
    t / SecondsPerDay
  }

  /** A day-precision date string. */
  function FormatDay(d: Day): (s: string)
    ensures Strings.AllDigits(s) && |s| > 0
    ensures ParseDay(s) == Some(d)
  {
    Strings.ParseNatToString(d);
    Strings.NatToString(d)
  }

  /** Parses a day-precision date string; strings that are not dates give `None`. */
  function ParseDay(s: string): (r: Option<Day>)
    ensures r.Some? ==> |s| > 0 && Strings.AllDigits(s)
  {
    Strings.ParseNat(s)
  }
}
