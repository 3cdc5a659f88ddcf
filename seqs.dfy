/** Generic facts about sequences that the listings and the file system rely on. */
module Seqs {

  /** No element occurs twice (a directory listing never names a file twice). */
  predicate Distinct<T(==)>(s: seq<T>) {
    forall i, j | 0 <= i < j < |s| :: s[i] != s[j]
  }

  /** The elements of `s` that satisfy `p`, in the order of `s` (Swift's `filter`). */
  function Filter<T>(s: seq<T>, p: T -> bool): (r: seq<T>)
    ensures |r| <= |s|
    ensures forall i | 0 <= i < |r| :: r[i] in s && p(r[i])
    ensures forall i | 0 <= i < |s| && p(s[i]) :: s[i] in r
  {
    if s == [] then []
    else (if p(s[0]) then [s[0]] else []) + Filter(s[1..], p)
  }

  /** `s` without the elements of `gone`, in the order of `s`. */
  function Without<T(==)>(s: seq<T>, gone: set<T>): (r: seq<T>)
    ensures |r| <= |s|
    ensures forall i | 0 <= i < |r| :: r[i] in s && r[i] !in gone
    ensures forall i | 0 <= i < |s| && s[i] !in gone :: s[i] in r
  {
    if s == [] then []
    else
      var rest := Without(s[1..], gone);
      (if s[0] in gone then [] else [s[0]]) + rest
  }

  /** Removing elements keeps a sequence free of repetitions. */
  lemma {:induction false} WithoutDistinct<T>(s: seq<T>, gone: set<T>)
    requires Distinct(s)
    ensures Distinct(Without(s, gone))
  {
    if s != [] {
      WithoutDistinct(s[1..], gone);
      assert s[0] !in s[1..];
      assert s[0] !in Without(s[1..], gone);
    }
  }

  /** One step of `Without`, for a sequence given as head and tail. */
  lemma WithoutCons<T>(x: T, t: seq<T>, gone: set<T>)
    ensures Without([x] + t, gone) == (if x in gone then [] else [x]) + Without(t, gone)
  {
    assert ([x] + t)[0] == x;
    assert ([x] + t)[1..] == t;
  }

  /** Removing two sets one after the other is removing their union. */
  lemma {:induction false} WithoutWithout<T>(s: seq<T>, a: set<T>, b: set<T>)
    ensures Without(Without(s, a), b) == Without(s, a + b)
  {
    if s != [] {
      var x, t := s[0], s[1..];
      assert s == [x] + t;
      WithoutWithout(t, a, b);
      WithoutCons(x, t, a + b);
      if x in a {
        calc {
          Without(Without(s, a), b);
          { WithoutCons(x, t, a); assert [] + Without(t, a) == Without(t, a); }
          Without(Without(t, a), b);
          Without(t, a + b);
          Without(s, a + b);
        }
      } else {
        calc {
          Without(Without(s, a), b);
          { WithoutCons(x, t, a); }
          Without([x] + Without(t, a), b);
          { WithoutCons(x, Without(t, a), b); }
          (if x in b then [] else [x]) + Without(Without(t, a), b);
          (if x in b then [] else [x]) + Without(t, a + b);
          Without(s, a + b);
        }
      }
    }
  }

  /** Removing elements that do not occur changes nothing. */
  lemma {:induction false} WithoutAbsent<T>(s: seq<T>, gone: set<T>)
    requires forall x | x in gone :: x !in s
    ensures Without(s, gone) == s
  {
    if s != [] {
      WithoutAbsent(s[1..], gone);
      assert s == [s[0]] + s[1..];
    }
  }

  /** In a sequence without repetitions every element occurs at most once. */
  lemma {:induction false} DistinctCount<T>(s: seq<T>, x: T)
    requires Distinct(s)
    ensures multiset(s)[x] <= 1
  {
    if s != [] {
      assert s == [s[0]] + s[1..];
      assert Distinct(s[1..]);
      DistinctCount(s[1..], x);
      if s[0] == x {
        assert x !in s[1..];
      }
    }
  }

  /** A sequence in which every element occurs at most once has no repetitions. */
  lemma CountDistinct<T>(s: seq<T>)
    requires forall x | x in s :: multiset(s)[x] <= 1
    ensures Distinct(s)
  {
    forall i, j | 0 <= i < j < |s| ensures s[i] != s[j] {
      assert s == s[..j] + s[j..];
      assert s[i] in multiset(s[..j]);
      assert s[j] in multiset(s[j..]);
      assert multiset(s)[s[j]] == multiset(s[..j])[s[j]] + multiset(s[j..])[s[j]];
    }
  }

  /**
   * In a sequence without repetitions ordered by `key`, an element whose key is
   * above every other element's comes last, and only there.
   */
  lemma MaxIsLast<T>(s: seq<T>, key: T -> int, x: T)
    requires Distinct(s) && x in s
    requires forall i, j | 0 <= i < j < |s| :: key(s[i]) <= key(s[j])
    requires forall y | y in s && y != x :: key(y) < key(x)
    ensures s[|s| - 1] == x && x !in s[..|s| - 1]
  {
    var last := |s| - 1;
    var i :| 0 <= i < |s| && s[i] == x;
    assert key(s[i]) <= key(s[last]) by {
      if i < last {
        assert key(s[i]) <= key(s[last]);
      }
    }
    assert s[last] == x;
    assert forall k | 0 <= k < last :: s[..last][k] != x;
  }

  /** The elements of `s` in the opposite order (Swift's `reversed()`). */
  function Reversed<T>(s: seq<T>): (r: seq<T>)
    ensures |r| == |s|
    ensures forall i | 0 <= i < |s| :: r[i] == s[|s| - 1 - i]
  {
    if s == [] then [] else Reversed(s[1..]) + [s[0]]
  }

  function Min(a: int, b: int): int { if a <= b then a else b }
}
