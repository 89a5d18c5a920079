/** The edits the calculator makes to its input buffer: appending a key's
    value with operator collapsing, the function keys of `handleFunction`,
    and deleting the last character. Each is a function of the old buffer;
    the `Engine` module's methods perform them in place. */
module Buffer {
  import opened Text

  // ---------------------------------------------------------------------------
  // Operator keys and collapsing

  /** The four binary operators the key handler collapses. */
  predicate IsOperator(c: char) {
    c == '+' || c == '-' || c == '*' || c == '/'
  }

  /** `['+', '-', '*', '/'].includes(v)`: the text is exactly one operator. */
  predicate IsOperatorText(v: string) {
    |v| == 1 && IsOperator(v[0])
  }

  /** `buf.slice(-1)`: the suffix of the buffer of length one, or the empty
      text for the empty buffer. */
  function LastChar(buf: string): (r: string)
    ensures |r| == if buf == [] then 0 else 1
    ensures buf[..|buf| - |r|] + r == buf
  {
    if buf == [] then [] else [buf[|buf| - 1]]
  }

  /** The key handler collapses when both the key and the buffer's last
      character are operators: the buffer is non-empty and the key is a single
      character. */
  predicate Collapses(buf: string, v: string): (b: bool)
    ensures b <==> buf != [] && |v| == 1 && IsOperator(buf[|buf| - 1]) && IsOperator(v[0])
  {
    IsOperatorText(v) && IsOperatorText(LastChar(buf))
  }

  /** The buffer after a key with a value: a second operator in a row replaces
      the first; anything else is appended. */
  function AppendValue(buf: string, v: string): (r: string)
    ensures Collapses(buf, v) ==>
      |r| == |buf| && r[..|buf| - 1] == buf[..|buf| - 1] && r[|buf| - 1] == v[0]
    ensures !Collapses(buf, v) ==> r == buf + v
  {
    if Collapses(buf, v) then buf[..|buf| - 1] + v else buf + v
  }

  /** Pressing two operators in a row leaves the buffer as pressing only the
      second would. */
  lemma OperatorPressesCollapse(buf: string, o1: string, o2: string)
    requires IsOperatorText(o1) && IsOperatorText(o2)
    ensures AppendValue(AppendValue(buf, o1), o2) == AppendValue(buf, o2)
  {
    var b1 := AppendValue(buf, o1);
    assert LastChar(b1) == o1;
    if Collapses(buf, o1) {
      assert b1[..|b1| - 1] == buf[..|buf| - 1];
    } else {
      assert b1[..|b1| - 1] == buf;
    }
  }

  /** No operator directly follows another. */
  predicate NoDoubleOperator(s: string) {
    forall i :: 0 < i < |s| ==> !(IsOperator(s[i - 1]) && IsOperator(s[i]))
  }

  /** Single-character keys never produce two adjacent operators. */
  lemma AppendValueKeepsNoDoubleOperator(buf: string, v: string)
    requires NoDoubleOperator(buf) && |v| == 1
    ensures NoDoubleOperator(AppendValue(buf, v))
  {
    var r := AppendValue(buf, v);
    forall i | 0 < i < |r|
      ensures !(IsOperator(r[i - 1]) && IsOperator(r[i]))
    {
      if i < |r| - 1 {
        assert r[i - 1] == buf[i - 1] && r[i] == buf[i];
      } else if Collapses(buf, v) {
        assert LastChar(buf) == [buf[|buf| - 1]];
        assert IsOperator(buf[|buf| - 1]);
        assert r[i - 1] == buf[|buf| - 2];
      } else {
        assert r[i - 1] == buf[|buf| - 1] && r[i] == v[0];
        assert LastChar(buf) == [buf[|buf| - 1]];
      }
    }
  }

  // ---------------------------------------------------------------------------
  // Delete and the displayed text

  /** `buf.slice(0, -1)`: drops the last character; the empty buffer stays empty. */
  function DeleteLast(buf: string): (r: string)
    ensures buf == [] ==> r == []
    ensures buf != [] ==> r + [buf[|buf| - 1]] == buf
  {
    if buf == [] then [] else buf[..|buf| - 1]
  }

  /** Delete undoes a one-character key that did not collapse. */
  lemma DeleteUndoesAppend(buf: string, v: string)
    requires |v| == 1 && !Collapses(buf, v)
    ensures DeleteLast(AppendValue(buf, v)) == buf
  {
    assert (buf + v)[..|buf|] == buf;
  }

  /** Delete after a collapsed operator removes the operator altogether. */
  lemma DeleteAfterCollapse(buf: string, v: string)
    requires Collapses(buf, v)
    ensures DeleteLast(AppendValue(buf, v)) == DeleteLast(buf)
  {
    var r := AppendValue(buf, v);
    assert r[..|r| - 1] == buf[..|buf| - 1];
  }

  /** `buf || '0'`: the text the display and result lines show for a buffer. */
  function Shown(buf: string): (r: string)
    ensures r != []
    ensures buf != [] ==> r == buf
    ensures buf == [] ==> r == "0"
  {
    if buf == [] then "0" else buf
  }

  // ---------------------------------------------------------------------------
  // handleFunction

  /** The functions inserted as a call `name(`. */
  predicate IsCallName(fn: string) {
    fn == "sqrt" || fn == "sin" || fn == "cos" || fn == "tan" ||
    fn == "log" || fn == "ln" || fn == "abs" || fn == "exp"
  }

  /** The functions that get a `*` after a number or a closing parenthesis. */
  predicate NeedsTimes(fn: string) {
    fn == "sin" || fn == "cos" || fn == "tan" || fn == "log" || fn == "sqrt"
  }

  /** `/[0-9)]/.test(lastChar)`: the buffer ends with a digit or `)`. */
  predicate EndsOperand(buf: string) {
    buf != [] && (IsDigit(buf[|buf| - 1]) || buf[|buf| - 1] == ')')
  }

  /** `Math.PI.toString()`. */
  const PiText := "3.141592653589793"

  /** `Math.E.toString()`. */
  const EText := "2.718281828459045"

  /** Texts `String` gives for the falsy values the evaluator can return
      (`0` and `-0` already print as `0`). */
  predicate IsFalsyText(t: string) {
    t == "NaN" || t == "undefined" || t == "null" || t == "false" || t == ""
  }

  /** `String(lastAnswer || 0)`, from the text of the last answer: `ans`
      never inserts an empty text or the text of a falsy value. */
  function AnsText(last: string): (r: string)
    ensures r != [] && !IsFalsyText(r)
    ensures IsFalsyText(last) ==> r == "0"
    ensures !IsFalsyText(last) ==> r == last
  {
    if IsFalsyText(last) then "0" else last
  }

  /** Toggle-sign: strips one leading `-`, or prepends one. */
  function ToggleSign(buf: string): (r: string)
    ensures buf != [] && buf[0] == '-' ==> "-" + r == buf
    ensures !(buf != [] && buf[0] == '-') ==> r == "-" + buf
  {
    if buf != [] && buf[0] == '-' then buf[1..] else "-" + buf
  }

  /** The names `handleFunction` acts on. */
  predicate IsKnownFunction(fn: string) {
    IsCallName(fn) || fn == "pow" || fn == "pi" || fn == "e" || fn == "rand" ||
    fn == "inv" || fn == "fact" || fn == "ans" || fn == "toggle-sign"
  }

  /** The buffer after `handleFunction(fn)`; `ans` is the text `ans` inserts
      and `rand` the text of the random number. An unknown name only has the
      implicit `*` rule applied, which no unknown name meets. */
  function ApplyFunction(buf: string, fn: string, ans: string, rand: string): (r: string)
    ensures fn != "inv" && fn != "toggle-sign" ==> buf <= r
    ensures !IsKnownFunction(fn) ==> r == buf
  {
    var b := if EndsOperand(buf) && NeedsTimes(fn) then buf + "*" else buf;
    if IsCallName(fn) then b + fn + "("
    else if fn == "pow" then b + "**"
    else if fn == "pi" then b + PiText
    else if fn == "e" then b + EText
    else if fn == "rand" then b + rand
    else if fn == "inv" then "1/(" + b + ")"
    else if fn == "fact" then b + "!"
    else if fn == "ans" then b + ans
    else if fn == "toggle-sign" then ToggleSign(b)
    else b
  }

  /** A call key adds `*` exactly when the function is one of sin, cos, tan,
      log, sqrt and the buffer ends with a digit or `)`; otherwise it appends
      only `name(`. */
  lemma ImplicitTimes(buf: string, fn: string, ans: string, rand: string)
    requires IsCallName(fn)
    ensures NeedsTimes(fn) && EndsOperand(buf) ==> ApplyFunction(buf, fn, ans, rand) == buf + "*" + fn + "("
    ensures !(NeedsTimes(fn) && EndsOperand(buf)) ==> ApplyFunction(buf, fn, ans, rand) == buf + fn + "("
    ensures ApplyFunction(buf, fn, ans, rand) == buf + "*" + fn + "(" <==> NeedsTimes(fn) && EndsOperand(buf)
  {
    if !(NeedsTimes(fn) && EndsOperand(buf)) {
      assert (buf + fn + "(")[|buf|] == fn[0] != '*';
    }
  }

  lemma ImplicitTimesExamples()
    ensures ApplyFunction("5", "sin", "0", "0") == "5*sin("
    ensures ApplyFunction("(1+2)", "sqrt", "0", "0") == "(1+2)*sqrt("
    ensures ApplyFunction("5", "ln", "0", "0") == "5ln("
    ensures ApplyFunction("5+", "sin", "0", "0") == "5+sin("
  {
    ImplicitTimes("5", "sin", "0", "0");
    ImplicitTimes("(1+2)", "sqrt", "0", "0");
    ImplicitTimes("5", "ln", "0", "0");
    ImplicitTimes("5+", "sin", "0", "0");
  }

  /** Toggling twice restores the buffer exactly when it does not start with
      two minus signs. */
  lemma ToggleTwice(buf: string)
    ensures ToggleSign(ToggleSign(buf)) == buf <==> !(|buf| >= 2 && buf[0] == '-' && buf[1] == '-')
  {
    if |buf| >= 2 && buf[0] == '-' && buf[1] == '-' {
      assert |ToggleSign(ToggleSign(buf))| == |buf| - 2;
    } else if buf != [] && buf[0] == '-' {
      assert "-" + buf[1..] == buf;
    } else {
      assert ("-" + buf)[1..] == buf;
    }
  }

  /** `5+3` toggles to `-5+3` and back. */
  lemma ToggleExample()
    ensures ApplyFunction("5+3", "toggle-sign", "0", "0") == "-5+3"
    ensures ApplyFunction("-5+3", "toggle-sign", "0", "0") == "5+3"
  {
    assert "-5+3"[1..] == "5+3";
  }

  /** inv wraps the whole buffer in one more pair of parentheses, so the
      surplus of `(` over `)` is kept. */
  lemma InvKeepsParenSurplus(buf: string, ans: string, rand: string)
    ensures var r := ApplyFunction(buf, "inv", ans, rand);
      r == "1/(" + buf + ")" &&
      Count(r, '(') - Count(r, ')') == Count(buf, '(') - Count(buf, ')')
  {
    var r := "1/(" + buf + ")";
    CountConcat("1/(" + buf, ")", '(');
    CountConcat("1/(" + buf, ")", ')');
    CountConcat("1/(", buf, '(');
    CountConcat("1/(", buf, ')');
  }

  /** fact, pow, ans and rand append their text to any buffer. */
  lemma PostfixKeys(buf: string, ans: string, rand: string)
    ensures ApplyFunction(buf, "fact", ans, rand) == buf + "!"
    ensures ApplyFunction(buf, "pow", ans, rand) == buf + "**"
    ensures ApplyFunction(buf, "ans", ans, rand) == buf + ans
    ensures ApplyFunction(buf, "rand", ans, rand) == buf + rand
  {
  }

  /** pow is not subject to operator collapsing: after a digit it leaves two
      adjacent operators in the buffer. */
  lemma PowMakesDoubleOperator()
    ensures NoDoubleOperator("2")
    ensures !NoDoubleOperator(ApplyFunction("2", "pow", "0", "0"))
  {
    assert ApplyFunction("2", "pow", "0", "0")[1] == '*';
    assert ApplyFunction("2", "pow", "0", "0")[2] == '*';
  }

  /** Neither is toggle-sign: on a buffer starting with an operator it puts
      `-` in front of it. */
  lemma ToggleMakesDoubleOperator()
    ensures NoDoubleOperator("+")
    ensures !NoDoubleOperator(ApplyFunction("+", "toggle-sign", "0", "0"))
  {
    var r := ApplyFunction("+", "toggle-sign", "0", "0");
    assert r == "-+";
    assert r[0] == '-' && r[1] == '+';
  }
}
