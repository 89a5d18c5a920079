/** The pre-processing `calculateExpression` applies to the buffer before it
    hands the text to the evaluator: auto-closing parentheses, replacing the
    display symbols and function names, and folding `<digits>!` into the value
    of the factorial. The evaluator itself is a parameter. */
module Expression {
  import opened Text
  import opened Substitution
  import opened Factorials

  datatype Option<T> = None | Some(value: T)

  /** What an evaluation yields: the number the evaluator returned, carried as
      the text `String()` gives for it, or the error marker. */
  datatype Outcome = Value(text: string) | Error

  // ---------------------------------------------------------------------------
  // Auto-closing parentheses

  /** Appends one `)` per unmatched `(`; when `)` outnumbers `(` the repeat
      count is negative, the repeat throws and there is no result. */
  function AutoClose(expr: string): (r: Option<string>)
    ensures r.Some? <==> Count(expr, '(') >= Count(expr, ')')
    ensures r.Some? ==> expr <= r.value
    ensures r.Some? ==> forall i :: |expr| <= i < |r.value| ==> r.value[i] == ')'
    ensures r.Some? ==> Count(r.value, '(') == Count(r.value, ')')
  {
    var open, close := Count(expr, '('), Count(expr, ')');
    if open >= close then
      var tail := Repeat(')', open - close);
      CountConcat(expr, tail, '(');
      CountConcat(expr, tail, ')');
      RepeatCount(')', open - close, '(');
      RepeatCount(')', open - close, ')');
      Some(expr + tail)
    else
      None
  }

  /** On a balanced expression auto-close adds nothing, so applying it to its
      own result changes nothing. */
  lemma AutoCloseIdempotent(expr: string)
    requires AutoClose(expr).Some?
    ensures AutoClose(AutoClose(expr).value) == AutoClose(expr)
  {
    var t := AutoClose(expr).value;
    assert Repeat(')', 0) == [];
    assert t + [] == t;
  }

  // ---------------------------------------------------------------------------
  // The two logarithms

  /** What a typed `log(` has become before replacement `k` runs. */
  function LogToken(k: nat): string {
    if k <= 5 then "log(" else "Math.log10("
  }

  /** What a typed `ln(` has become before replacement `k` runs. */
  function LnToken(k: nat): string {
    if k <= 6 then "ln(" else "Math.log("
  }

  /** `abs(` cannot match at the `a` of `Math.log10(`, which `t` follows. */
  lemma AbsPassesLog10(x: string)
    ensures ReplaceAll("Math.log10(" + x, "abs(", "Math.abs(") == "Math.log10(" + ReplaceAll(x, "abs(", "Math.abs(")
  {
    assert "M" + ['a'] + "th.log10(" == "Math.log10(";
    ReplaceAllPassOver("M", 'a', "th.log10(", x, "abs(", "Math.abs(");
  }

  /** `abs(` cannot match at the `a` of `Math.log(`, which `t` follows. */
  lemma AbsPassesLog(x: string)
    ensures ReplaceAll("Math.log(" + x, "abs(", "Math.abs(") == "Math.log(" + ReplaceAll(x, "abs(", "Math.abs(")
  {
    assert "M" + ['a'] + "th.log(" == "Math.log(";
    ReplaceAllPassOver("M", 'a', "th.log(", x, "abs(", "Math.abs(");
  }

  /** `ln(` cannot match at the `l` of `log10(`, which `o` follows. */
  lemma LnPassesLog10(x: string)
    ensures ReplaceAll("Math.log10(" + x, "ln(", "Math.log(") == "Math.log10(" + ReplaceAll(x, "ln(", "Math.log(")
  {
    assert "Math." + ['l'] + "og10(" == "Math.log10(";
    ReplaceAllPassOver("Math.", 'l', "og10(", x, "ln(", "Math.log(");
  }

  /** `log(` cannot match at the `l` of `ln(`, which `n` follows. */
  lemma LogPassesLn(x: string)
    ensures ReplaceAll("ln(" + x, "log(", "Math.log10(") == "ln(" + ReplaceAll(x, "log(", "Math.log10(")
  {
    assert [] + ['l'] + "n(" == "ln(";
    ReplaceAllPassOver([], 'l', "n(", x, "log(", "Math.log10(");
  }

  /** Replacement `k` renames the `log(` token at its own step and otherwise
      passes over it, replacing in the text after it. */
  lemma LogTokenStep(k: nat, x: string)
    requires k < |Replacements|
    ensures ReplaceAll(LogToken(k) + x, Replacements[k].0, Replacements[k].1)
         == LogToken(k + 1) + ReplaceAll(x, Replacements[k].0, Replacements[k].1)
  {
    var (pat, rep) := Replacements[k];
    if k < 5 {
      assert pat[0] in "÷×sct";
      ReplaceAllPrefix("log(", x, pat, rep);
    } else if k == 5 {
      ReplaceAllFront("log(", x, rep);
    } else if k == 6 {
      LnPassesLog10(x);
    } else if k == 8 {
      AbsPassesLog10(x);
    } else {
      assert pat[0] in "se";
      ReplaceAllPrefix("Math.log10(", x, pat, rep);
    }
  }

  /** Replacement `k` renames the `ln(` token at its own step and otherwise
      passes over it, replacing in the text after it. */
  lemma LnTokenStep(k: nat, x: string)
    requires k < |Replacements|
    ensures ReplaceAll(LnToken(k) + x, Replacements[k].0, Replacements[k].1)
         == LnToken(k + 1) + ReplaceAll(x, Replacements[k].0, Replacements[k].1)
  {
    var (pat, rep) := Replacements[k];
    if k < 5 {
      assert pat[0] in "÷×sct";
      ReplaceAllPrefix("ln(", x, pat, rep);
    } else if k == 5 {
      LogPassesLn(x);
    } else if k == 6 {
      ReplaceAllFront("ln(", x, rep);
    } else if k == 8 {
      AbsPassesLog(x);
    } else {
      assert pat[0] in "se";
      ReplaceAllPrefix("Math.log(", x, pat, rep);
    }
  }

  /** From step `k` on, the text before a `log(` and the text after it are
      substituted on their own, and the call itself ends as `Math.log10(`. */
  lemma {:induction false} LogChain(p: string, x: string, k: nat)
    requires k <= |Replacements|
    ensures ReplaceEach(p + LogToken(k) + x, Replacements[k..])
         == ReplaceEach(p, Replacements[k..]) + "Math.log10(" + ReplaceEach(x, Replacements[k..])
    decreases |Replacements| - k
  {
    if k == |Replacements| {
      assert Replacements[k..] == [];
    } else {
      var (pat, rep) := Replacements[k];
      PatternStarts(k);
      LogTokenStep(k, x);
      StepOver(p, LogToken(k), x, pat, rep, LogToken(k + 1));
      ReplaceEachAt(p + LogToken(k) + x, k);
      ReplaceEachAt(p, k);
      ReplaceEachAt(x, k);
      LogChain(ReplaceAll(p, pat, rep), ReplaceAll(x, pat, rep), k + 1);
    }
  }

  /** From step `k` on, the text before an `ln(` and the text after it are
      substituted on their own, and the call itself ends as `Math.log(`. */
  lemma {:induction false} LnChain(p: string, x: string, k: nat)
    requires k <= |Replacements|
    ensures ReplaceEach(p + LnToken(k) + x, Replacements[k..])
         == ReplaceEach(p, Replacements[k..]) + "Math.log(" + ReplaceEach(x, Replacements[k..])
    decreases |Replacements| - k
  {
    if k == |Replacements| {
      assert Replacements[k..] == [];
    } else {
      var (pat, rep) := Replacements[k];
      PatternStarts(k);
      LnTokenStep(k, x);
      StepOver(p, LnToken(k), x, pat, rep, LnToken(k + 1));
      ReplaceEachAt(p + LnToken(k) + x, k);
      ReplaceEachAt(p, k);
      ReplaceEachAt(x, k);
      LnChain(ReplaceAll(p, pat, rep), ReplaceAll(x, pat, rep), k + 1);
    }
  }

  /** Every `log(` becomes the base-10 `Math.log10(`: the texts on either
      side of one are substituted on their own, whatever calls they hold. */
  lemma SubstituteLog(p: string, x: string)
    ensures Substitute(p + "log(" + x) == Substitute(p) + "Math.log10(" + Substitute(x)
  {
    assert Replacements[0..] == Replacements;
    LogChain(p, x, 0);
  }

  /** Every `ln(` becomes the natural `Math.log(`: the texts on either side
      of one are substituted on their own, whatever calls they hold. */
  lemma SubstituteLn(p: string, x: string)
    ensures Substitute(p + "ln(" + x) == Substitute(p) + "Math.log(" + Substitute(x)
  {
    assert Replacements[0..] == Replacements;
    LnChain(p, x, 0);
  }

  /** Both logarithms in one buffer are renamed, as in `log(100)+ln(2)`, or
      `log(ln(5))` when `m` is empty; the plain texts around them stay. */
  lemma SubstituteLogThenLn(p: string, m: string, x: string)
    requires Plain(p) && Plain(m) && Plain(x)
    ensures Substitute(p + "log(" + m + "ln(" + x) == p + "Math.log10(" + m + "Math.log(" + x
  {
    var y := m + "ln(" + x;
    LnBetweenPlain(m, x);
    LogBeforeAny(p, y);
    Associate(p + "log(" + m, "ln(", x);
    Associate(p + "log(", m, "ln(" + x);
    Associate(m, "ln(", x);
    Associate(p + "Math.log10(" + m, "Math.log(", x);
    Associate(p + "Math.log10(", m, "Math.log(" + x);
    Associate(m, "Math.log(", x);
  }

  /** `ln(` between plain texts is renamed and the texts stay. */
  lemma LnBetweenPlain(m: string, x: string)
    requires Plain(m) && Plain(x)
    ensures Substitute(m + "ln(" + x) == m + "Math.log(" + x
  {
    SubstituteLn(m, x);
    SubstitutePlain(m);
    SubstitutePlain(x);
  }

  /** `log(` after plain text is renamed, whatever follows it. */
  lemma LogBeforeAny(p: string, y: string)
    requires Plain(p)
    ensures Substitute(p + "log(" + y) == p + "Math.log10(" + Substitute(y)
  {
    SubstituteLog(p, y);
    SubstitutePlain(p);
  }

  // ---------------------------------------------------------------------------
  // calculateExpression

  /** The text the evaluator receives, or nothing when auto-close throws. It
      exists exactly when `(` is not outnumbered by `)`, and then has balanced
      parentheses and no display symbols. */
  function Prepare(expr: string): (r: Option<string>)
    ensures r.Some? <==> Count(expr, '(') >= Count(expr, ')')
    ensures r.Some? ==> Count(r.value, '(') == Count(r.value, ')') && '÷' !in r.value && '×' !in r.value
  {
    match AutoClose(expr)
    case None => None
    case Some(closed) =>
      var sub := Substitute(closed);
      RewriteFactorialsKeeps(sub, '(');
      RewriteFactorialsKeeps(sub, ')');
      RewriteFactorialsKeeps(sub, '÷');
      RewriteFactorialsKeeps(sub, '×');
      Some(RewriteFactorials(sub))
  }

  /** `calculateExpression`: the evaluator's outcome on the prepared text, and
      the error marker when auto-close throws. */
  function Calculate(expr: string, eval: string -> Outcome): (r: Outcome)
    ensures Count(expr, ')') > Count(expr, '(') ==> r == Error
    ensures Count(expr, '(') >= Count(expr, ')') ==>
      exists t :: Count(t, '(') == Count(t, ')') && r == eval(t)
  {
    match Prepare(expr)
    case None => Error
    case Some(t) => eval(t)
  }

  /** A number followed by `!` reaches the evaluator as the decimal text of
      its factorial. */
  lemma PrepareNumberFactorial(d: string)
    requires d != [] && AllDigits(d)
    ensures Prepare(d + "!") == Some(NatToString(Fact(DigitsValue(d))))
  {
    var s := d + "!";
    assert '(' !in s && ')' !in s;
    assert AutoClose(s) == Some(s) by {
      assert Repeat(')', 0) == [];
      assert s + [] == s;
    }
    assert Plain(s);
    SubstitutePlain(s);
    RewriteFactorialsNumber(d);
  }

  /** A balanced argument typed after `log(`, itself typed after a balanced
      plain text such as `5*`, is closed by auto-close and reaches the
      evaluator as a base-10 `Math.log10(` call. */
  lemma PrepareLogCall(p: string, x: string)
    requires Plain(p) && '!' !in p && Count(p, '(') == Count(p, ')')
    requires Plain(x) && '!' !in x && Count(x, '(') == Count(x, ')')
    ensures Prepare(p + "log(" + x) == Some(p + "Math.log10(" + x + ")")
  {
    LogCallCloses(p, x);
    PrepareOf(p + "log(" + x, p + "log(" + (x + ")"));
    LogCallRenamed(p, x + ")");
    Associate(p + "Math.log10(", x, ")");
  }

  lemma LogCallCloses(p: string, x: string)
    requires Count(p, '(') == Count(p, ')') && Count(x, '(') == Count(x, ')')
    ensures AutoClose(p + "log(" + x) == Some(p + "log(" + (x + ")"))
  {
    CallOpens(p, "log(");
    CallCloses(p + "log(", x);
    Associate(p + "log(", x, ")");
  }

  lemma LogCallRenamed(p: string, y: string)
    requires Plain(p) && '!' !in p && Plain(y) && '!' !in y
    ensures RewriteFactorials(Substitute(p + "log(" + y)) == p + "Math.log10(" + y
  {
    SubstituteLog(p, y);
    SubstitutePlain(p);
    SubstitutePlain(y);
    assert '!' !in p + "Math.log10(";
    NoBangAfter(p + "Math.log10(", y);
  }

  /** A balanced argument typed after `ln(`, itself typed after a balanced
      plain text, is closed by auto-close and reaches the evaluator as a
      natural `Math.log(` call. */
  lemma PrepareLnCall(p: string, x: string)
    requires Plain(p) && '!' !in p && Count(p, '(') == Count(p, ')')
    requires Plain(x) && '!' !in x && Count(x, '(') == Count(x, ')')
    ensures Prepare(p + "ln(" + x) == Some(p + "Math.log(" + x + ")")
  {
    LnCallCloses(p, x);
    PrepareOf(p + "ln(" + x, p + "ln(" + (x + ")"));
    LnCallRenamed(p, x + ")");
    Associate(p + "Math.log(", x, ")");
  }

  lemma LnCallCloses(p: string, x: string)
    requires Count(p, '(') == Count(p, ')') && Count(x, '(') == Count(x, ')')
    ensures AutoClose(p + "ln(" + x) == Some(p + "ln(" + (x + ")"))
  {
    CallOpens(p, "ln(");
    CallCloses(p + "ln(", x);
    Associate(p + "ln(", x, ")");
  }

  lemma LnCallRenamed(p: string, y: string)
    requires Plain(p) && '!' !in p && Plain(y) && '!' !in y
    ensures RewriteFactorials(Substitute(p + "ln(" + y)) == p + "Math.log(" + y
  {
    SubstituteLn(p, y);
    SubstitutePlain(p);
    SubstitutePlain(y);
    assert '!' !in p + "Math.log(";
    NoBangAfter(p + "Math.log(", y);
  }

  /** A call `name(` after a balanced text leaves one `(` open. */
  lemma CallOpens(p: string, call: string)
    requires Count(p, '(') == Count(p, ')')
    requires Count(call, '(') == 1 && Count(call, ')') == 0
    ensures Count(p + call, '(') == Count(p + call, ')') + 1
  {
    CountConcat(p, call, '(');
    CountConcat(p, call, ')');
  }

  /** Once auto-close succeeds, the prepared text is the rewritten substitution. */
  lemma PrepareOf(expr: string, closed: string)
    requires AutoClose(expr) == Some(closed)
    ensures Prepare(expr) == Some(RewriteFactorials(Substitute(closed)))
  {
  }

  /** A text without `!` is not rewritten. */
  lemma NoBangAfter(call: string, y: string)
    requires '!' !in call && '!' !in y
    ensures RewriteFactorials(call + y) == call + y
  {
  }

  /** An expression with one unmatched `(` followed by a balanced argument
      gets exactly one `)`. */
  lemma CallCloses(call: string, x: string)
    requires Count(call, '(') == Count(call, ')') + 1 && Count(x, '(') == Count(x, ')')
    ensures AutoClose(call + x) == Some(call + x + ")")
  {
    CountConcat(call, x, '(');
    CountConcat(call, x, ')');
    AutoCloseOne(call + x);
  }

  /** An expression with one more `(` than `)` gets one closer. */
  lemma AutoCloseOne(expr: string)
    requires Count(expr, '(') == Count(expr, ')') + 1
    ensures AutoClose(expr) == Some(expr + ")")
  {
    assert Repeat(')', 1) == ")";
  }

  lemma PrepareFactorial()
    ensures Prepare("5!") == Some("120")
  {
    assert Count("5!", '(') == 0 && Count("5!", ')') == 0;
    assert "5!" + Repeat(')', 0) == "5!";
    SubstitutePlain("5!");
    RewriteFactorialsFive();
  }

  lemma PrepareKeepsBang()
    ensures Prepare("(2+3)!") == Some("(2+3)!")
  {
    KeepsBangCloses();
    KeepsBangPlain();
    NoDigitBangUnchanged("(2+3)!");
  }

  lemma KeepsBangCloses()
    ensures AutoClose("(2+3)!") == Some("(2+3)!")
  {
    assert Count("(2+3)!", '(') == 1 && Count("(2+3)!", ')') == 1;
    assert "(2+3)!" + Repeat(')', 0) == "(2+3)!";
  }

  lemma KeepsBangPlain()
    ensures Substitute("(2+3)!") == "(2+3)!"
    ensures DigitBangs("(2+3)!") == 0
  {
    SubstitutePlain("(2+3)!");
  }

  lemma PrepareRejects()
    ensures Prepare("2)") == None
  {
    assert Count("2)", '(') == 0 && Count("2)", ')') == 1;
  }
}
