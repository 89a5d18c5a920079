/** The global replacements `calculateExpression` applies to the auto-closed
    expression: the display symbols `÷` and `×`, then each function-call name
    to its `Math` counterpart. */
module Substitution {
  import opened Text

  // Symbol and function-name substitution

  /** The global replacements `calculateExpression` chains, in its order: the
      display symbols, then each function-call name to its `Math` counterpart. */
  const Replacements: seq<(string, string)> := [
    ("÷", "/"), ("×", "*"),
    ("sin(", "Math.sin("), ("cos(", "Math.cos("), ("tan(", "Math.tan("),
    ("log(", "Math.log10("), ("ln(", "Math.log("),
    ("sqrt(", "Math.sqrt("), ("abs(", "Math.abs("), ("exp(", "Math.exp(")
  ]

  predicate NonEmptyPatterns(reps: seq<(string, string)>) {
    forall i :: 0 <= i < |reps| ==> reps[i].0 != []
  }

  /** Applies each replacement in turn to the whole string. A character of
      the result comes from the string or from one of the replacement texts. */
  function ReplaceEach(s: string, reps: seq<(string, string)>): (r: string)
    requires NonEmptyPatterns(reps)
    ensures forall c :: c in r && c !in s ==> exists i :: 0 <= i < |reps| && c in reps[i].1
    decreases |reps|, |s|
  {
    if reps == [] then s
    else
      var r := ReplaceEach(ReplaceAll(s, reps[0].0, reps[0].1), reps[1..]);
      assert forall i :: 0 <= i < |reps| - 1 ==> reps[1..][i] == reps[i + 1];
      r
  }

  /** The substitution `calculateExpression` applies: it keeps the number of
      `(` and of `)`, and leaves no `÷` or `×`. */
  function Substitute(expr: string): (r: string)
    ensures Count(r, '(') == Count(expr, '(') && Count(r, ')') == Count(expr, ')')
    ensures '÷' !in r && '×' !in r
  {
    ChainKeepsParens(expr, '(');
    ChainKeepsParens(expr, ')');
    ChainRemovesDisplaySymbols(expr, '÷');
    ChainRemovesDisplaySymbols(expr, '×');
    ReplaceEach(expr, Replacements)
  }

  /** One step of the chain, starting at replacement `k`. */
  lemma ReplaceEachAt(s: string, k: nat)
    requires k < |Replacements|
    ensures ReplaceEach(s, Replacements[k..])
         == ReplaceEach(ReplaceAll(s, Replacements[k].0, Replacements[k].1), Replacements[k + 1..])
  {
    assert Replacements[k..][1..] == Replacements[k + 1..];
  }

  /** Replacements that each hold `c` equally often on both sides keep the count of `c`. */
  lemma {:induction false} ReplaceEachCount(s: string, reps: seq<(string, string)>, c: char)
    requires NonEmptyPatterns(reps)
    requires forall i :: 0 <= i < |reps| ==> Count(reps[i].0, c) == Count(reps[i].1, c)
    ensures Count(ReplaceEach(s, reps), c) == Count(s, c)
    decreases |reps|
  {
    if reps != [] {
      ReplaceAllCount(s, reps[0].0, reps[0].1, c);
      ReplaceEachCount(ReplaceAll(s, reps[0].0, reps[0].1), reps[1..], c);
    }
  }

  /** A character no replacement text holds is gone after the replacements when
      one of them removes it. */
  lemma {:induction false} ReplaceEachAbsent(s: string, reps: seq<(string, string)>, c: char)
    requires NonEmptyPatterns(reps)
    requires forall i :: 0 <= i < |reps| ==> c !in reps[i].1
    requires c !in s || exists j :: 0 <= j < |reps| && reps[j].0 == [c]
    ensures c !in ReplaceEach(s, reps)
    decreases |reps|
  {
    if reps != [] {
      var s1 := ReplaceAll(s, reps[0].0, reps[0].1);
      if reps[0].0 == [c] || c !in s {
        ReplaceAllAbsent(s, reps[0].0, reps[0].1, c);
      } else {
        var j :| 0 <= j < |reps| && reps[j].0 == [c];
        assert reps[1..][j - 1].0 == [c];
      }
      ReplaceEachAbsent(s1, reps[1..], c);
    }
  }

  /** `name(` and `target(` hold the same parentheses when neither name holds one. */
  lemma CallParens(name: string, target: string, c: char)
    requires c == '(' || c == ')'
    requires c !in name && c !in target
    ensures Count(name + "(", c) == Count(target + "(", c)
  {
    CountConcat(name, "(", c);
    CountConcat(target, "(", c);
  }

  /** Each replacement swaps one `(` for one `(`, or touches no parenthesis. */
  lemma ReplacementsKeepParens(c: char)
    requires c == '(' || c == ')'
    ensures forall i :: 0 <= i < |Replacements| ==> Count(Replacements[i].0, c) == Count(Replacements[i].1, c)
  {
    forall i | 0 <= i < |Replacements|
      ensures Count(Replacements[i].0, c) == Count(Replacements[i].1, c)
    {
      if i < 2 {
        assert c !in Replacements[i].0 && c !in Replacements[i].1;
      } else if i == 2 {
        assert Replacements[i] == ("sin(", "Math.sin(");
        assert "sin" + "(" == "sin(" && "Math.sin" + "(" == "Math.sin(";
        CallParens("sin", "Math.sin", c);
      } else if i == 3 {
        assert Replacements[i] == ("cos(", "Math.cos(");
        assert "cos" + "(" == "cos(" && "Math.cos" + "(" == "Math.cos(";
        CallParens("cos", "Math.cos", c);
      } else if i == 4 {
        assert Replacements[i] == ("tan(", "Math.tan(");
        assert "tan" + "(" == "tan(" && "Math.tan" + "(" == "Math.tan(";
        CallParens("tan", "Math.tan", c);
      } else if i == 5 {
        assert Replacements[i] == ("log(", "Math.log10(");
        assert "log" + "(" == "log(" && "Math.log10" + "(" == "Math.log10(";
        CallParens("log", "Math.log10", c);
      } else if i == 6 {
        assert Replacements[i] == ("ln(", "Math.log(");
        assert "ln" + "(" == "ln(" && "Math.log" + "(" == "Math.log(";
        CallParens("ln", "Math.log", c);
      } else if i == 7 {
        assert Replacements[i] == ("sqrt(", "Math.sqrt(");
        assert "sqrt" + "(" == "sqrt(" && "Math.sqrt" + "(" == "Math.sqrt(";
        CallParens("sqrt", "Math.sqrt", c);
      } else if i == 8 {
        assert Replacements[i] == ("abs(", "Math.abs(");
        assert "abs" + "(" == "abs(" && "Math.abs" + "(" == "Math.abs(";
        CallParens("abs", "Math.abs", c);
      } else if i == 9 {
        assert Replacements[i] == ("exp(", "Math.exp(");
        assert "exp" + "(" == "exp(" && "Math.exp" + "(" == "Math.exp(";
        CallParens("exp", "Math.exp", c);
      }
    }
  }

  /** Neither parenthesis count moves along the chain of replacements. */
  lemma ChainKeepsParens(expr: string, c: char)
    requires c == '(' || c == ')'
    ensures Count(ReplaceEach(expr, Replacements), c) == Count(expr, c)
  {
    ReplacementsKeepParens(c);
    ReplaceEachCount(expr, Replacements, c);
  }

  /** No `÷` or `×` survives the chain of replacements. */
  lemma ChainRemovesDisplaySymbols(expr: string, c: char)
    requires c == '÷' || c == '×'
    ensures c !in ReplaceEach(expr, Replacements)
  {
    assert Replacements[if c == '÷' then 0 else 1].0 == [c];
    ReplaceEachAbsent(expr, Replacements, c);
  }

  /** Text without lower-case letters and without the display symbols: digits,
      operators, parentheses and the decimal point. */
  predicate Plain(s: string) {
    forall i :: 0 <= i < |s| ==> !('a' <= s[i] <= 'z') && s[i] != '÷' && s[i] != '×'
  }

  /** A replacement whose pattern holds a character the string lacks is skipped. */
  lemma SkipStep(s: string, k: nat, c: char)
    requires k < |Replacements| && c in Replacements[k].0 && c !in s
    ensures ReplaceEach(s, Replacements[k..]) == ReplaceEach(s, Replacements[k + 1..])
  {
    ReplaceEachAt(s, k);
    ReplaceAllMissing(s, Replacements[k].0, Replacements[k].1, c);
  }

  /** The display-symbol steps leave text without display symbols alone. */
  lemma SkipSymbols(s: string)
    requires '÷' !in s && '×' !in s
    ensures ReplaceEach(s, Replacements) == ReplaceEach(s, Replacements[2..])
  {
    ReplaceAllMissing(s, Replacements[0].0, Replacements[0].1, '÷');
    SkipStep(s, 1, '×');
  }

  /** The sin, cos and tan steps leave text without `s`, `c` and `t` alone. */
  lemma SkipTrig(s: string)
    requires 's' !in s && 'c' !in s && 't' !in s
    ensures ReplaceEach(s, Replacements[2..]) == ReplaceEach(s, Replacements[5..])
  {
    SkipStep(s, 2, 's');
    SkipStep(s, 3, 'c');
    SkipStep(s, 4, 't');
  }

  /** The steps before `log(`'s own leave text without display symbols and
      without `s`, `c`, `t` alone. */
  lemma SkipToLog(s: string)
    requires '÷' !in s && '×' !in s && 's' !in s && 'c' !in s && 't' !in s
    ensures ReplaceEach(s, Replacements) == ReplaceEach(s, Replacements[5..])
  {
    SkipSymbols(s);
    SkipTrig(s);
  }

  /** The log and ln steps leave text without `l` alone. */
  lemma SkipLogs(s: string)
    requires 'l' !in s
    ensures ReplaceEach(s, Replacements[5..]) == ReplaceEach(s, Replacements[7..])
  {
    SkipStep(s, 5, 'l');
    SkipStep(s, 6, 'l');
  }

  /** The sqrt, abs and exp steps leave text without `q`, `b` and `x` alone. */
  lemma SkipTail(s: string)
    requires 'q' !in s && 'b' !in s && 'x' !in s
    ensures ReplaceEach(s, Replacements[7..]) == s
  {
    SkipStep(s, 7, 'q');
    SkipStep(s, 8, 'b');
    SkipStep(s, 9, 'x');
    assert Replacements[10..] == [];
  }

  /** Plain text passes through the substitution unchanged. */
  lemma SubstitutePlain(s: string)
    requires Plain(s)
    ensures Substitute(s) == s
  {
    assert '÷' !in s && '×' !in s && 's' !in s && 'c' !in s && 't' !in s;
    SkipToLog(s);
    SkipFromLog(s);
  }

  /** The steps from `log(`'s own on leave text without `l`, `q`, `b`, `x` alone. */
  lemma SkipFromLog(s: string)
    requires 'l' !in s && 'q' !in s && 'b' !in s && 'x' !in s
    ensures ReplaceEach(s, Replacements[5..]) == s
  {
    SkipLogs(s);
    SkipTail(s);
  }

  /** Past its first character no pattern holds an `l` or an `M`, so no
      match can run into a text that starts with either. */
  lemma PatternStarts(k: nat)
    requires k < |Replacements|
    ensures 'l' !in Replacements[k].0[1..] && 'M' !in Replacements[k].0[1..]
  {
  }

  /** A step over `p + tok + x`, where no match can run from `p` into `tok`,
      replaces in `p` on its own and turns `tok + x` as it would alone. */
  lemma StepOver(p: string, tok: string, x: string, pat: string, rep: string, tok': string)
    requires pat != [] && tok != [] && tok[0] !in pat[1..]
    requires ReplaceAll(tok + x, pat, rep) == tok' + ReplaceAll(x, pat, rep)
    ensures ReplaceAll(p + tok + x, pat, rep) == ReplaceAll(p, pat, rep) + tok' + ReplaceAll(x, pat, rep)
  {
    Associate(p, tok, x);
    ReplaceAllSplit(p, tok + x, pat, rep);
    Associate(ReplaceAll(p, pat, rep), tok', ReplaceAll(x, pat, rep));
  }
}
