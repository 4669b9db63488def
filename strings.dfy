/** The two pieces of JavaScript string behaviour the core relies on:
    `String.prototype.split` with a non-empty separator, and the
    lexicographic order on ISO `YYYY-MM-DD` date strings. */
module Strings {

  /** `sep` occurs in `s` starting at index `i`. */
  predicate OccursAt(s: string, sep: string, i: nat)
  {
    i + |sep| <= |s| && s[i..i + |sep|] == sep
  }

  /** `sep` occurs nowhere in `s`. */
  predicate Free(s: string, sep: string)
  {
    forall i: nat :: i < |s| ==> !OccursAt(s, sep, i)
  }

  /** `s.split(sep)` in JavaScript, scanning left to right; `piece` is the
      part of the current piece already read. */
  function SplitFrom(s: string, sep: string, piece: string): (parts: seq<string>)
    requires |sep| > 0
    ensures |parts| >= 1
    decreases |s|
  {
    if |s| == 0 then [piece]
    else if sep <= s then [piece] + SplitFrom(s[|sep|..], sep, [])
    else SplitFrom(s[1..], sep, piece + [s[0]])
  }

  function Split(s: string, sep: string): (parts: seq<string>)
    requires |sep| > 0
    ensures |parts| >= 1
  {
    SplitFrom(s, sep, [])
  }

  /** Without a separator in it, the rest of the string ends the current piece. */
  lemma {:induction false} SplitFromFree(s: string, sep: string, piece: string)
    requires |sep| > 0 && Free(s, sep)
    ensures SplitFrom(s, sep, piece) == [piece + s]
    decreases |s|
  {
    if |s| == 0 {
      assert piece + s == piece;
    } else {
      assert !OccursAt(s, sep, 0);
      assert !(sep <= s);
      forall i: nat | i < |s[1..]|
        ensures !OccursAt(s[1..], sep, i)
      {
        assert !OccursAt(s, sep, i + 1);
        if i + |sep| <= |s[1..]| {
          assert s[1..][i..i + |sep|] == s[i + 1..i + 1 + |sep|];
        }
      }
      SplitFromFree(s[1..], sep, piece + [s[0]]);
      assert piece + [s[0]] + s[1..] == piece + s;
    }
  }

  /** The first separator of `p + sep + r` is the one after `p`. */
  lemma {:induction false} SplitFromAt(p: string, sep: string, r: string, piece: string)
    requires |sep| > 0
    requires forall i: nat :: i < |p| ==> !OccursAt(p + sep + r, sep, i)
    ensures SplitFrom(p + sep + r, sep, piece) == [piece + p] + SplitFrom(r, sep, [])
    decreases |p|
  {
    var s := p + sep + r;
    if |p| == 0 {
      assert s == sep + r;
      assert sep <= s;
      assert s[|sep|..] == r;
      assert piece + p == piece;
    } else {
      assert !OccursAt(s, sep, 0);
      assert !(sep <= s);
      assert s[1..] == p[1..] + sep + r;
      forall i: nat | i < |p[1..]|
        ensures !OccursAt(p[1..] + sep + r, sep, i)
      {
        assert !OccursAt(s, sep, i + 1);
        if i + |sep| <= |s[1..]| {
          assert s[1..][i..i + |sep|] == s[i + 1..i + 1 + |sep|];
        }
      }
      SplitFromAt(p[1..], sep, r, piece + [p[0]]);
      assert piece + [p[0]] + p[1..] == piece + p;
    }
  }

  /** Splitting `g + "  " + r` on a double space gives back `g` and `r`,
      provided `g` has no space and `r` no double space. */
  lemma SplitOnDoubleSpace(g: string, r: string)
    requires ' ' !in g
    requires Free(r, "  ")
    ensures Split(g + "  " + r, "  ") == [g, r]
  {
    var s := g + "  " + r;
    forall i: nat | i < |g|
      ensures !OccursAt(s, "  ", i)
    {
      assert s[i] == g[i];
    }
    SplitFromAt(g, "  ", r, []);
    SplitFromFree(r, "  ", []);
    assert [] + g == g && [] + r == r;
  }

  /** Lexicographic order on strings: for ISO dates, chronological order. */
  predicate LexLess(a: string, b: string)
    decreases |a|
  {
    if |b| == 0 then false
    else if |a| == 0 then true
    else if a[0] < b[0] then true
    else a[0] == b[0] && LexLess(a[1..], b[1..])
  }

  lemma {:induction false} LexLessIrreflexive(a: string)
    ensures !LexLess(a, a)
    decreases |a|
  {
    if |a| > 0 {
      LexLessIrreflexive(a[1..]);
    }
  }

  lemma {:induction false} LexLessTransitive(a: string, b: string, c: string)
    requires LexLess(a, b) && LexLess(b, c)
    ensures LexLess(a, c)
    decreases |a|
  {
    if |a| > 0 && a[0] == b[0] && b[0] == c[0] {
      LexLessTransitive(a[1..], b[1..], c[1..]);
    }
  }
}
