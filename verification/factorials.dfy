/** The factorial helper and the rewrite of every `<digits>!` in the
    substituted expression into the decimal text of its factorial. */
module Factorials {
  import opened Text

  /** n! over the integers: 1 for 0 and 1, otherwise the product 2 * ... * n. */
  function Fact(n: nat): (r: nat)
    ensures r >= 1 && r >= n
  {
    if n <= 1 then 1 else n * Fact(n - 1)
  }

  /** The factorial helper's result: not-a-number for a negative argument. */
  datatype FactValue = NotANumber | Product(value: nat)

  /** The factorial helper: NaN below zero, 1 for 0 and 1, otherwise a loop
      multiplying `res` by 2, 3, ..., n. */
  method Factorial(n: int) returns (r: FactValue)
    ensures n < 0 ==> r == NotANumber
    ensures n >= 0 ==> r == Product(Fact(n))
  {
    if n < 0 {
      return NotANumber;
    }
    if n == 0 || n == 1 {
      return Product(1);
    }
    var res := 1;
    for i := 2 to n + 1
      invariant res == Fact(i - 1)
    {
      res := res * i;
    }
    return Product(res);
  }

  lemma FactExamples()
    ensures Fact(0) == 1 && Fact(1) == 1 && Fact(5) == 120
  {
  }

  // ---------------------------------------------------------------------------
  // Decimal digits

  /** `Number(d)` for a run of decimal digits (leading zeros allowed): zero
      exactly when every digit is `0`. */
  function DigitsValue(d: string): (r: nat)
    requires AllDigits(d)
    ensures r == 0 <==> forall i :: 0 <= i < |d| ==> d[i] == '0'
  {
    if d == [] then 0 else 10 * DigitsValue(d[..|d| - 1]) + (d[|d| - 1] as int - '0' as int)
  }

  /** The decimal text of a natural number, without leading zeros. */
  function NatToString(n: nat): (r: string)
    ensures r != [] && AllDigits(r)
    ensures |r| > 1 ==> r[0] != '0'
  {
    if n < 10 then ["0123456789"[n]]
    else NatToString(n / 10) + ["0123456789"[n % 10]]
  }

  /** Reading back the decimal text of `n` gives `n`. */
  lemma {:induction false} NatToStringRoundTrip(n: nat)
    ensures DigitsValue(NatToString(n)) == n
  {
    var r := NatToString(n);
    DigitChar(n % 10);
    if n >= 10 {
      NatToStringRoundTrip(n / 10);
      assert r[..|r| - 1] == NatToString(n / 10);
    }
  }

  /** The `k`-th character of the digit table has the value `k`. */
  lemma DigitChar(k: nat)
    requires k < 10
    ensures "0123456789"[k] as int - '0' as int == k
  {
  }

  // ---------------------------------------------------------------------------
  // Folding `<digits>!` into the factorial's value

  /** Length of the run of digits at the start of `s`. */
  function DigitRun(s: string): (k: nat)
    ensures k <= |s|
    ensures AllDigits(s[..k])
    ensures k < |s| ==> !IsDigit(s[k])
  {
    if s == [] || !IsDigit(s[0]) then 0 else 1 + DigitRun(s[1..])
  }

  /** `s.replace(/(\d+)!/g, (_, n) => factorial(Number(n)))`: at each position
      the greedy digit run must be followed by `!` for a match; a matched run
      and its `!` become the decimal text of the factorial, and otherwise the
      scan moves on by one character. The rewrite brings in digits only, and
      a text without `!` is left alone. */
  function RewriteFactorials(s: string): (r: string)
    ensures forall c :: c in r ==> c in s || IsDigit(c)
    ensures '!' !in s ==> r == s
    decreases |s|
  {
    if s == [] then []
    else
      var k := DigitRun(s);
      if 0 < k < |s| && s[k] == '!' then
        NatToString(Fact(DigitsValue(s[..k]))) + RewriteFactorials(s[k + 1..])
      else
        [s[0]] + RewriteFactorials(s[1..])
  }

  /** Number of `!` that directly follow a digit. */
  function DigitBangs(s: string): nat {
    if |s| < 2 then 0
    else (if IsDigit(s[0]) && s[1] == '!' then 1 else 0) + DigitBangs(s[1..])
  }

  /** Inside a run of digits no digit is followed by `!`, so only the pair at
      the run's end can count. */
  lemma {:induction false} DigitBangsSkipRun(s: string, k: nat)
    requires 1 <= k <= |s| && AllDigits(s[..k])
    ensures DigitBangs(s) == DigitBangs(s[k - 1..])
  {
    if k > 1 {
      assert IsDigit(s[1]);
      assert s[1..][..k - 1] == s[1..k];
      DigitBangsSkipRun(s[1..], k - 1);
      assert s[1..][k - 2..] == s[k - 1..];
    }
  }

  /** The rewrite consumes exactly the `!` that follow a digit; every other `!`
      (after `)`, say) survives. */
  lemma {:induction false} RewriteFactorialsBangs(s: string)
    ensures Count(RewriteFactorials(s), '!') + DigitBangs(s) == Count(s, '!')
    decreases |s|
  {
    if s != [] {
      var k := DigitRun(s);
      if 0 < k < |s| && s[k] == '!' {
        RewriteFactorialsBangs(s[k + 1..]);
        BangsAtMatch(s, k);
      } else {
        RewriteFactorialsBangs(s[1..]);
        BangsAtSkip(s, k);
      }
    }
  }

  /** The step of RewriteFactorialsBangs where a digit run and its `!` are replaced. */
  lemma BangsAtMatch(s: string, k: nat)
    requires k == DigitRun(s) && 0 < k < |s| && s[k] == '!'
    requires Count(RewriteFactorials(s[k + 1..]), '!') + DigitBangs(s[k + 1..]) == Count(s[k + 1..], '!')
    ensures Count(RewriteFactorials(s), '!') + DigitBangs(s) == Count(s, '!')
  {
    MatchRewrite(s, k);
    MatchCount(s, k);
    MatchDigitBangs(s, k);
  }

  /** A matched run and its `!` become digits, which hold no `!`. */
  lemma MatchRewrite(s: string, k: nat)
    requires k == DigitRun(s) && 0 < k < |s| && s[k] == '!'
    ensures Count(RewriteFactorials(s), '!') == Count(RewriteFactorials(s[k + 1..]), '!')
  {
    var digits := NatToString(Fact(DigitsValue(s[..k])));
    assert RewriteFactorials(s) == digits + RewriteFactorials(s[k + 1..]);
    CountConcat(digits, RewriteFactorials(s[k + 1..]), '!');
  }

  /** The matched text holds exactly one `!`, the one after the run. */
  lemma MatchCount(s: string, k: nat)
    requires k == DigitRun(s) && 0 < k < |s| && s[k] == '!'
    ensures Count(s, '!') == 1 + Count(s[k + 1..], '!')
  {
    assert '!' !in s[..k];
    CountSplit(s, k, '!');
    assert s[k..] == [s[k]] + s[k + 1..];
    CountConcat([s[k]], s[k + 1..], '!');
  }

  /** The matched text holds exactly one digit followed by `!`. */
  lemma MatchDigitBangs(s: string, k: nat)
    requires k == DigitRun(s) && 0 < k < |s| && s[k] == '!'
    ensures DigitBangs(s) == 1 + DigitBangs(s[k + 1..])
  {
    DigitBangsSkipRun(s, k);
    assert s[k - 1..][1..] == s[k..];
    assert s[k..][1..] == s[k + 1..];
  }

  /** The step of RewriteFactorialsBangs where one character is copied. */
  lemma BangsAtSkip(s: string, k: nat)
    requires s != [] && k == DigitRun(s) && !(0 < k < |s| && s[k] == '!')
    requires Count(RewriteFactorials(s[1..]), '!') + DigitBangs(s[1..]) == Count(s[1..], '!')
    ensures Count(RewriteFactorials(s), '!') + DigitBangs(s) == Count(s, '!')
  {
    CopyStep(s, k);
    CountConcat([s[0]], RewriteFactorials(s[1..]), '!');
    SkipDigitBangs(s, k);
  }

  /** Where no run ends in `!`, the rewrite copies the first character. */
  lemma CopyStep(s: string, k: nat)
    requires s != [] && k == DigitRun(s) && !(0 < k < |s| && s[k] == '!')
    ensures RewriteFactorials(s) == [s[0]] + RewriteFactorials(s[1..])
  {
  }

  /** Where no run ends in `!`, the first character is not a digit before `!`. */
  lemma SkipDigitBangs(s: string, k: nat)
    requires s != [] && k == DigitRun(s) && !(0 < k < |s| && s[k] == '!')
    ensures DigitBangs(s) == DigitBangs(s[1..])
  {
    if |s| >= 2 && IsDigit(s[0]) {
      assert s[1] != '!' by {
        if k >= 2 { assert s[..k][1] == s[1]; }
      }
    }
  }

  /** Characters that are neither digits nor `!` pass through the rewrite in
      the same number. */
  lemma {:induction false} RewriteFactorialsKeeps(s: string, c: char)
    requires !IsDigit(c) && c != '!'
    ensures Count(RewriteFactorials(s), c) == Count(s, c)
    decreases |s|
  {
    if s != [] {
      var k := DigitRun(s);
      if 0 < k < |s| && s[k] == '!' {
        RewriteFactorialsKeeps(s[k + 1..], c);
        KeepsAtMatch(s, k, c);
      } else {
        RewriteFactorialsKeeps(s[1..], c);
        CopyStep(s, k);
        CountConcat([s[0]], RewriteFactorials(s[1..]), c);
      }
    }
  }

  /** The step of RewriteFactorialsKeeps where a digit run and its `!` are
      replaced: neither side of the replacement holds `c`. */
  lemma KeepsAtMatch(s: string, k: nat, c: char)
    requires !IsDigit(c) && c != '!'
    requires k == DigitRun(s) && 0 < k < |s| && s[k] == '!'
    ensures Count(RewriteFactorials(s), c) == Count(RewriteFactorials(s[k + 1..]), c)
    ensures Count(s, c) == Count(s[k + 1..], c)
  {
    var digits := NatToString(Fact(DigitsValue(s[..k])));
    assert RewriteFactorials(s) == digits + RewriteFactorials(s[k + 1..]);
    CountConcat(digits, RewriteFactorials(s[k + 1..]), c);
    assert c !in digits;
    KeepsInRun(s, k, c);
  }

  /** A digit run and the `!` after it hold no other character. */
  lemma KeepsInRun(s: string, k: nat, c: char)
    requires !IsDigit(c) && c != '!'
    requires k < |s| && AllDigits(s[..k]) && s[k] == '!'
    ensures Count(s, c) == Count(s[k + 1..], c)
  {
    assert c !in s[..k];
    CountSplit(s, k, c);
    assert s[k..] == [s[k]] + s[k + 1..];
    CountConcat([s[k]], s[k + 1..], c);
  }

  /** The rewrite leaves a string alone exactly when no `!` follows a digit. */
  lemma RewriteFactorialsFixed(s: string)
    ensures RewriteFactorials(s) == s <==> DigitBangs(s) == 0
  {
    RewriteFactorialsBangs(s);
    if DigitBangs(s) == 0 {
      NoDigitBangUnchanged(s);
    }
  }

  lemma {:induction false} NoDigitBangUnchanged(s: string)
    requires DigitBangs(s) == 0
    ensures RewriteFactorials(s) == s
    decreases |s|
  {
    if s != [] {
      var k := DigitRun(s);
      if 0 < k < |s| && s[k] == '!' {
        DigitBangsSkipRun(s, k);
        assert false;
      } else {
        if |s| >= 2 {
          assert DigitBangs(s[1..]) == 0;
        }
        NoDigitBangUnchanged(s[1..]);
      }
    }
  }

  /** `5!` becomes `120`. */
  lemma RewriteFactorialsFive()
    ensures RewriteFactorials("5!") == "120"
  {
    assert DigitRun("5!") == 1;
    assert "5!"[..1] == "5";
    assert DigitsValue("5") == 5;
    assert Fact(5) == 120;
    assert NatToString(120) == "120";
    assert "5!"[2..] == [];
  }

  /** The digit run of a run of digits followed by a non-digit is the whole run. */
  lemma {:induction false} DigitRunOfDigits(d: string, rest: string)
    requires AllDigits(d) && (rest == [] || !IsDigit(rest[0]))
    ensures DigitRun(d + rest) == |d|
    decreases |d|
  {
    if d != [] {
      assert (d + rest)[1..] == d[1..] + rest;
      DigitRunOfDigits(d[1..], rest);
    } else {
      assert d + rest == rest;
    }
  }

  /** A digit run starting in a text that does not end with a digit stays
      inside that text. */
  lemma {:induction false} DigitRunPrefix(p: string, t: string)
    requires p != [] && !IsDigit(p[|p| - 1])
    ensures DigitRun(p + t) == DigitRun(p) < |p|
    decreases |p|
  {
    if IsDigit(p[0]) {
      assert (p + t)[1..] == p[1..] + t;
      DigitRunPrefix(p[1..], t);
    }
  }

  /** Text that does not end with a digit is rewritten on its own: no match
      reaches across its end. */
  lemma {:induction false} RewriteFactorialsSplit(p: string, t: string)
    requires p == [] || !IsDigit(p[|p| - 1])
    ensures RewriteFactorials(p + t) == RewriteFactorials(p) + RewriteFactorials(t)
    decreases |p|
  {
    if p == [] {
      assert p + t == t;
    } else {
      var k := DigitRun(p);
      DigitRunPrefix(p, t);
      if 0 < k && p[k] == '!' {
        RewriteFactorialsSplit(p[k + 1..], t);
        SplitAtMatch(p, t, k);
      } else {
        RewriteFactorialsSplit(p[1..], t);
        SplitAtCopy(p, t, k);
      }
    }
  }

  /** The step of RewriteFactorialsSplit where a run inside `p` matches. */
  lemma SplitAtMatch(p: string, t: string, k: nat)
    requires k == DigitRun(p) == DigitRun(p + t) && 0 < k < |p| && p[k] == '!'
    requires RewriteFactorials(p[k + 1..] + t) == RewriteFactorials(p[k + 1..]) + RewriteFactorials(t)
    ensures RewriteFactorials(p + t) == RewriteFactorials(p) + RewriteFactorials(t)
  {
    MatchConcat(p, t, k);
    MatchStep(p, k);
    Associate(NatToString(Fact(DigitsValue(p[..k]))), RewriteFactorials(p[k + 1..]), RewriteFactorials(t));
  }

  /** A match inside `p` is a match inside `p + t`. */
  lemma MatchConcat(p: string, t: string, k: nat)
    requires k == DigitRun(p) == DigitRun(p + t) && 0 < k < |p| && p[k] == '!'
    ensures RewriteFactorials(p + t)
         == NatToString(Fact(DigitsValue(p[..k]))) + RewriteFactorials(p[k + 1..] + t)
  {
    var s := p + t;
    assert s[k + 1..] == p[k + 1..] + t;
    assert s[..k] == p[..k] && s[k] == '!';
    MatchStep(s, k);
  }

  /** Where the run at the front ends in `!`, the rewrite replaces the run and
      its `!`, then goes on after them. */
  lemma MatchStep(s: string, k: nat)
    requires k == DigitRun(s) && 0 < k < |s| && s[k] == '!'
    ensures RewriteFactorials(s) == NatToString(Fact(DigitsValue(s[..k]))) + RewriteFactorials(s[k + 1..])
  {
  }

  /** The step of RewriteFactorialsSplit where the first character of `p` is
      copied. */
  lemma SplitAtCopy(p: string, t: string, k: nat)
    requires k == DigitRun(p) == DigitRun(p + t) && k < |p| && !(0 < k && p[k] == '!')
    requires RewriteFactorials(p[1..] + t) == RewriteFactorials(p[1..]) + RewriteFactorials(t)
    ensures RewriteFactorials(p + t) == RewriteFactorials(p) + RewriteFactorials(t)
  {
    CopyConcat(p, t, k);
    CopyStep(p, k);
    Associate([p[0]], RewriteFactorials(p[1..]), RewriteFactorials(t));
  }

  /** A copied first character of `p` is a copied first character of `p + t`. */
  lemma CopyConcat(p: string, t: string, k: nat)
    requires k == DigitRun(p) == DigitRun(p + t) && k < |p| && !(0 < k && p[k] == '!')
    ensures RewriteFactorials(p + t) == [p[0]] + RewriteFactorials(p[1..] + t)
  {
    var s := p + t;
    assert s[1..] == p[1..] + t;
    assert s[0] == p[0] && !(0 < k < |s| && s[k] == '!') by {
      assert s[k] == p[k];
    }
    CopyStep(s, k);
  }

  /** A number followed by `!` anywhere in the text, after an operator, a
      parenthesis or the start, becomes the decimal text of its factorial;
      the text on either side is rewritten on its own. So `2+3!` becomes
      `2+6` and `3!*2` becomes `6*2`. */
  lemma RewriteFactorialsMatch(p: string, d: string, q: string)
    requires d != [] && AllDigits(d)
    requires p == [] || !IsDigit(p[|p| - 1])
    ensures RewriteFactorials(p + d + "!" + q)
         == RewriteFactorials(p) + NatToString(Fact(DigitsValue(d))) + RewriteFactorials(q)
  {
    Associate(p + d, "!", q);
    Associate(p, d, "!" + q);
    Associate(d, "!", q);
    RewriteFactorialsSplit(p, d + "!" + q);
    RewriteFactorialsFront(d, q);
    Associate(RewriteFactorials(p), NatToString(Fact(DigitsValue(d))), RewriteFactorials(q));
  }

  /** A number followed by `!` at the front is replaced, and the scan goes on
      after the `!`. */
  lemma RewriteFactorialsFront(d: string, q: string)
    requires d != [] && AllDigits(d)
    ensures RewriteFactorials(d + "!" + q) == NatToString(Fact(DigitsValue(d))) + RewriteFactorials(q)
  {
    var s := d + "!" + q;
    Associate(d, "!", q);
    DigitRunOfDigits(d, "!" + q);
    assert s[..|d|] == d && s[|d|] == '!';
    assert s[|d| + 1..] == q;
    MatchStep(s, |d|);
  }

  /** A number followed by `!` alone becomes the decimal text of its factorial. */
  lemma RewriteFactorialsNumber(d: string)
    requires d != [] && AllDigits(d)
    ensures RewriteFactorials(d + "!") == NatToString(Fact(DigitsValue(d)))
  {
    assert d + "!" + [] == d + "!";
    RewriteFactorialsFront(d, []);
  }

  /** The scan does not look behind a run: in a decimal number only the
      digits after the point are taken, so `2.5!` becomes `2.120`. */
  lemma RewriteFactorialsDecimal()
    ensures RewriteFactorials("2.5!") == "2.120"
  {
    var s := "2.5!";
    assert DigitRun(s) == 1 && s[1] == '.';
    assert s[1..] == ".5!";
    assert DigitRun(".5!") == 0;
    assert ".5!"[1..] == "5!";
    RewriteFactorialsFive();
  }
}
