/** Character counting and literal global replacement over strings: the two
    string operations the calculator's pre-processing is built from. */
module Text {

  /** The characters the regular-expression class `\d` (and `[0-9]`) matches. */
  predicate IsDigit(c: char) {
    '0' <= c <= '9'
  }

  predicate AllDigits(s: string) {
    forall i :: 0 <= i < |s| ==> IsDigit(s[i])
  }

  /** Number of occurrences of `c` in `s` (what `(s.match(/c/g) || []).length` gives). */
  function Count(s: string, c: char): (n: nat)
    ensures n <= |s|
    ensures n == 0 <==> c !in s
  {
    if s == [] then 0 else (if s[0] == c then 1 else 0) + Count(s[1..], c)
  }

  lemma {:induction false} CountConcat(a: string, b: string, c: char)
    ensures Count(a + b, c) == Count(a, c) + Count(b, c)
  {
    if a == [] {
      assert a + b == b;
    } else {
      assert (a + b)[1..] == a[1..] + b;
      CountConcat(a[1..], b, c);
    }
  }

  lemma Associate(a: string, b: string, c: string)
    ensures a + b + c == a + (b + c)
  {
  }

  /** Splitting a string anywhere splits its count. */
  lemma CountSplit(s: string, k: nat, c: char)
    requires k <= |s|
    ensures Count(s, c) == Count(s[..k], c) + Count(s[k..], c)
  {
    assert s == s[..k] + s[k..];
    CountConcat(s[..k], s[k..], c);
  }

  /** `c.repeat(n)` for a one-character string. */
  function Repeat(c: char, n: nat): (r: string)
    ensures |r| == n
    ensures forall i :: 0 <= i < n ==> r[i] == c
  {
    if n == 0 then [] else [c] + Repeat(c, n - 1)
  }

  lemma {:induction false} RepeatCount(c: char, n: nat, d: char)
    ensures Count(Repeat(c, n), d) == if c == d then n else 0
  {
    if n > 0 {
      RepeatCount(c, n - 1, d);
    }
  }

  /** `s.replace(/pat/g, rep)` for a literal pattern: scan left to right, replace
      every non-overlapping occurrence, resume after each replaced match. */
  function ReplaceAll(s: string, pat: string, rep: string): (r: string)
    requires pat != []
    ensures forall c :: c in r ==> c in s || c in rep
    decreases |s|
  {
    if |s| < |pat| then s
    else if s[..|pat|] == pat then rep + ReplaceAll(s[|pat|..], pat, rep)
    else [s[0]] + ReplaceAll(s[1..], pat, rep)
  }

  /** A replacement whose pattern and replacement hold `c` equally often keeps
      the number of `c` in the string. */
  lemma {:induction false} ReplaceAllCount(s: string, pat: string, rep: string, c: char)
    requires pat != []
    requires Count(pat, c) == Count(rep, c)
    ensures Count(ReplaceAll(s, pat, rep), c) == Count(s, c)
    decreases |s|
  {
    if |s| < |pat| {
    } else if s[..|pat|] == pat {
      ReplaceAllCount(s[|pat|..], pat, rep, c);
      CountConcat(rep, ReplaceAll(s[|pat|..], pat, rep), c);
      CountSplit(s, |pat|, c);
    } else {
      ReplaceAllCount(s[1..], pat, rep, c);
      CountConcat([s[0]], ReplaceAll(s[1..], pat, rep), c);
    }
  }

  /** After replacing every `c` by a text without `c`, no `c` is left; and a
      replacement whose text has no `c` never brings one in. */
  lemma {:induction false} ReplaceAllAbsent(s: string, pat: string, rep: string, c: char)
    requires pat != []
    requires c !in rep
    requires pat == [c] || c !in s
    ensures c !in ReplaceAll(s, pat, rep)
    decreases |s|
  {
    if |s| < |pat| {
      assert pat == [c] ==> s == [];
    } else if s[..|pat|] == pat {
      ReplaceAllAbsent(s[|pat|..], pat, rep, c);
    } else {
      assert pat == [c] ==> s[0] != c;
      ReplaceAllAbsent(s[1..], pat, rep, c);
    }
  }

  /** A pattern holding a character the string lacks never matches. */
  lemma {:induction false} ReplaceAllMissing(s: string, pat: string, rep: string, c: char)
    requires pat != [] && c in pat && c !in s
    ensures ReplaceAll(s, pat, rep) == s
    decreases |s|
  {
    if |s| >= |pat| {
      assert s[..|pat|] != pat by {
        var j :| 0 <= j < |pat| && pat[j] == c;
        assert s[..|pat|][j] == s[j];
      }
      ReplaceAllMissing(s[1..], pat, rep, c);
      assert [s[0]] + s[1..] == s;
    }
  }

  /** A match at the front is replaced and the scan resumes right after it. */
  lemma ReplaceAllFront(pat: string, s: string, rep: string)
    requires pat != []
    ensures ReplaceAll(pat + s, pat, rep) == rep + ReplaceAll(s, pat, rep)
  {
    assert (pat + s)[..|pat|] == pat;
    assert (pat + s)[|pat|..] == s;
  }

  /** A prefix that cannot start a match is copied, and the scan goes on
      after it as if the prefix were not there. */
  lemma {:induction false} ReplaceAllPrefix(p: string, s: string, pat: string, rep: string)
    requires pat != [] && pat[0] !in p
    ensures ReplaceAll(p + s, pat, rep) == p + ReplaceAll(s, pat, rep)
    decreases |p|
  {
    if p == [] {
      assert p + s == s;
    } else if |p + s| < |pat| {
    } else {
      assert (p + s)[..|pat|][0] == p[0];
      assert (p + s)[1..] == p[1..] + s;
      ReplaceAllPrefix(p[1..], s, pat, rep);
      assert [p[0]] + p[1..] == p;
    }
  }

  /** When the text after `a` starts with a character that no match can hold
      past its first position, no match straddles the two parts, and each is
      replaced on its own. */
  lemma {:induction false} ReplaceAllSplit(a: string, b: string, pat: string, rep: string)
    requires pat != [] && b != [] && b[0] !in pat[1..]
    ensures ReplaceAll(a + b, pat, rep) == ReplaceAll(a, pat, rep) + ReplaceAll(b, pat, rep)
    decreases |a|
  {
    if a == [] {
      assert a + b == b;
    } else if |a + b| < |pat| {
    } else if |a| >= |pat| && a[..|pat|] == pat {
      ReplaceAllSplit(a[|pat|..], b, pat, rep);
      ReplaceSplitMatch(a, b, pat, rep);
    } else {
      if |a| < |pat| {
        assert (a + b)[..|pat|][|a|] == b[0] && pat[1..][|a| - 1] == pat[|a|];
      } else {
        assert (a + b)[..|pat|] == a[..|pat|];
      }
      ReplaceAllSplit(a[1..], b, pat, rep);
      ReplaceSplitCopy(a, b, pat, rep);
    }
  }

  /** The step of `ReplaceAllSplit` where `a` starts with a match. */
  lemma ReplaceSplitMatch(a: string, b: string, pat: string, rep: string)
    requires pat != [] && |pat| <= |a| && a[..|pat|] == pat
    requires ReplaceAll(a[|pat|..] + b, pat, rep) == ReplaceAll(a[|pat|..], pat, rep) + ReplaceAll(b, pat, rep)
    ensures ReplaceAll(a + b, pat, rep) == ReplaceAll(a, pat, rep) + ReplaceAll(b, pat, rep)
  {
    assert (a + b)[..|pat|] == a[..|pat|];
    assert (a + b)[|pat|..] == a[|pat|..] + b;
    Associate(rep, ReplaceAll(a[|pat|..], pat, rep), ReplaceAll(b, pat, rep));
  }

  /** The step of `ReplaceAllSplit` where no match starts at the front. */
  lemma ReplaceSplitCopy(a: string, b: string, pat: string, rep: string)
    requires pat != [] && a != [] && |a + b| >= |pat| && (a + b)[..|pat|] != pat
    requires |a| >= |pat| ==> a[..|pat|] != pat
    requires ReplaceAll(a[1..] + b, pat, rep) == ReplaceAll(a[1..], pat, rep) + ReplaceAll(b, pat, rep)
    ensures ReplaceAll(a + b, pat, rep) == ReplaceAll(a, pat, rep) + ReplaceAll(b, pat, rep)
  {
    var y := ReplaceAll(b, pat, rep);
    assert ReplaceAll(a + b, pat, rep) == [a[0]] + ReplaceAll(a[1..] + b, pat, rep) by {
      assert (a + b)[1..] == a[1..] + b;
    }
    assert ReplaceAll(a, pat, rep) == [a[0]] + ReplaceAll(a[1..], pat, rep) by {
      if |a| < |pat| {
        assert [a[0]] + a[1..] == a;
      }
    }
    Associate([a[0]], ReplaceAll(a[1..], pat, rep), y);
  }

  /** A stretch `u`, `c`, `v` in which only `c` could start a match, and the
      character after it breaks that match, is copied whole. */
  lemma ReplaceAllPassOver(u: string, c: char, v: string, x: string, pat: string, rep: string)
    requires |pat| >= 2 && pat[0] !in u && v != [] && v[0] != pat[1] && pat[0] !in v
    ensures ReplaceAll(u + [c] + v + x, pat, rep) == u + [c] + v + ReplaceAll(x, pat, rep)
  {
    ReplaceAllPrefix(v, x, pat, rep);
    ReplaceAllSkipOne(c, v + x, pat, rep);
    ReplaceAllPrefix(u, [c] + (v + x), pat, rep);
    var y := ReplaceAll(x, pat, rep);
    Associate(u + [c], v, x);
    Associate(u, [c], v + x);
    Associate(u + [c], v, y);
    Associate(u, [c], v + y);
  }

  /** A character whose successor breaks the pattern at its second position
      starts no match: it is copied and the scan goes on after it. */
  lemma ReplaceAllSkipOne(c: char, s: string, pat: string, rep: string)
    requires |pat| >= 2 && s != [] && s[0] != pat[1]
    ensures ReplaceAll([c] + s, pat, rep) == [c] + ReplaceAll(s, pat, rep)
  {
    assert ([c] + s)[1..] == s;
    if |[c] + s| >= |pat| {
      assert ([c] + s)[..|pat|][1] == s[0];
    }
  }
}
