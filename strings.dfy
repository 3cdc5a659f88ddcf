/**
 * String operations the logger and its name providers use: decimal rendering and
 * parsing of numbers, Swift's `replacingOccurrences(of:with: "")`, `joined(separator:)`,
 * and finding a character.
 */
module Strings {
  import opened Options

  predicate IsDigit(c: char) { '0' <= c <= '9' }

  predicate AllDigits(s: string) {
    forall i | 0 <= i < |s| :: IsDigit(s[i])
  }

  function DigitChar(d: nat): (c: char)
    requires d < 10
    ensures IsDigit(c)
  {
    ('0' as int + d) as char
  }

  function DigitValue(c: char): (d: nat)
    requires IsDigit(c)
    ensures d < 10
  {
    c as int - '0' as int
  }

  /** The decimal rendering of `n` (Swift's string interpolation of an unsigned integer). */
  function NatToString(n: nat): (s: string)
    ensures |s| > 0 && AllDigits(s)
  {
    if n < 10 then [DigitChar(n)] else NatToString(n / 10) + [DigitChar(n % 10)]
  }

  function DigitsValue(s: string): nat
    requires AllDigits(s)
  {
    if s == [] then 0 else DigitsValue(s[..|s| - 1]) * 10 + DigitValue(s[|s| - 1])
  }

  /** A non-empty run of decimal digits read as a number; anything else does not parse. */
  function ParseNat(s: string): (r: Option<nat>)
    ensures r.Some? <==> |s| > 0 && AllDigits(s)
  {
    if |s| > 0 && AllDigits(s) then Some(DigitsValue(s)) else None
  }

  /** Reading back a rendered number gives the number. */
  lemma {:induction false} ParseNatToString(n: nat)
    ensures ParseNat(NatToString(n)) == Some(n)
  {
    var s := NatToString(n);
    if n < 10 {
      assert s[..|s| - 1] == [];
      assert DigitsValue(s) == DigitValue(DigitChar(n));
    } else {
      ParseNatToString(n / 10);
      assert s[..|s| - 1] == NatToString(n / 10);
      assert DigitsValue(s) == DigitsValue(NatToString(n / 10)) * 10 + DigitValue(DigitChar(n % 10));
    }
  }

  /** `p` occurs in `s` starting at position `i`. */
  predicate MatchAt(s: string, i: nat, p: string) {
    i + |p| <= |s| && s[i..i + |p|] == p
  }

  predicate Occurs(s: string, p: string) {
    exists i: nat | i <= |s| :: MatchAt(s, i, p)
  }

  /**
   * `s` with every occurrence of `p` removed, scanning left to right and not
   * rescanning what a removal brings together: Swift's
   * `replacingOccurrences(of: p, with: "")`.
   */
  function RemoveAll(s: string, p: string): (r: string)
    requires |p| > 0
    ensures |r| <= |s|
    decreases |s|
  {
    if |s| < |p| then s
    else if s[..|p|] == p then RemoveAll(s[|p|..], p)
    else [s[0]] + RemoveAll(s[1..], p)
  }

  /** Removing a pattern that does not occur leaves the string as it is. */
  lemma {:induction false} RemoveAllAbsent(s: string, p: string)
    requires |p| > 0
    requires !Occurs(s, p)
    ensures RemoveAll(s, p) == s
    decreases |s|
  {
    if |s| >= |p| {
      assert !MatchAt(s, 0, p);
      assert s[..|p|] != p;
      forall i: nat | MatchAt(s[1..], i, p) ensures false {
        assert s[1..][i..i + |p|] == s[i + 1..i + 1 + |p|];
        assert MatchAt(s, i + 1, p);
      }
      RemoveAllAbsent(s[1..], p);
    }
  }

  /** A leading occurrence of the pattern is removed and scanning resumes after it. */
  lemma RemoveAllLeading(p: string, t: string)
    requires |p| > 0
    ensures RemoveAll(p + t, p) == RemoveAll(t, p)
  {
    assert (p + t)[..|p|] == p;
    assert (p + t)[|p|..] == t;
  }

  /**
   * A trailing occurrence of `p` is the only thing removed when no occurrence starts
   * inside `s`: `RemoveAll(s + p, p) == s`.
   */
  lemma {:induction false} RemoveAllTrailing(s: string, p: string)
    requires |p| > 0
    requires forall i: nat | i < |s| :: !MatchAt(s + p, i, p)
    ensures RemoveAll(s + p, p) == s
    decreases |s|
  {
    if s == [] {
      assert s + p == p;
      assert p[..|p|] == p;
      assert p[|p|..] == [];
    } else {
      var t := s + p;
      assert !MatchAt(t, 0, p);
      assert t[..|p|] != p;
      assert t[1..] == s[1..] + p;
      forall i: nat | i < |s[1..]| ensures !MatchAt(s[1..] + p, i, p) {
        assert (s[1..] + p)[i..i + |p|] == t[i + 1..i + 1 + |p|] by {
          assert i + |p| <= |s[1..] + p| ==> (s[1..] + p)[i..i + |p|] == t[1..][i..i + |p|];
        }
        assert !MatchAt(t, i + 1, p);
      }
      RemoveAllTrailing(s[1..], p);
      assert t[0] == s[0];
      assert [s[0]] + s[1..] == s;
    }
  }

  /** `lines` joined with `sep` between consecutive elements (Swift's `joined(separator:)`). */
  function Join(lines: seq<string>, sep: string): string {
    if lines == [] then ""
    else if |lines| == 1 then lines[0]
    else lines[0] + sep + Join(lines[1..], sep)
  }

  /** The position of the first `c` in `s`, or `|s|` when there is none. */
  function IndexOf(s: string, c: char): (k: nat)
    ensures k <= |s|
    ensures k < |s| ==> s[k] == c
    ensures forall i | 0 <= i < k :: s[i] != c
  {
    if s == [] then 0 else if s[0] == c then 0 else 1 + IndexOf(s[1..], c)
  }

  /** The first `c` of `x + [c] + y` is the one after `x` when `x` has none. */
  lemma IndexOfAfter(x: string, c: char, y: string)
    requires forall i | 0 <= i < |x| :: x[i] != c
    ensures IndexOf(x + [c] + y, c) == |x|
  {
    var s := x + [c] + y;
    assert s[|x|] == c;
  }
}
