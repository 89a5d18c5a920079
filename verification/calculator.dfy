/** The calculator's state and its click handlers: the input buffer, the last
    answer and the history, together with the two screen lines (the display
    and the result line) whose text the key handler reads back. */
module Engine {
  import opened Text
  import opened Buffer
  import opened Expression

  /** One history item: the expression as typed and what it evaluated to. */
  datatype Entry = Entry(expression: string, value: Outcome)

  /** The text a screen line or the buffer gets for an outcome: the number's
      text, or `Error`. It reads `Error` for the error marker and for nothing
      else unless the evaluator's own text is `Error`. */
  function OutcomeText(o: Outcome): (r: string)
    ensures r == "Error" <==> o.Error? || o.text == "Error"
  {
    match o
    case Value(t) => t
    case Error => "Error"
  }

  /** An error is showing when either screen line reads `Error`. */
  predicate ErrorShowing(display: string, result: string) {
    display == "Error" || result == "Error"
  }

  /** The buffer a key starts from: emptied when an error is showing. It is
      never longer than the buffer, and differs from it only when an error
      is showing over a non-empty buffer. */
  function StartBuffer(input: string, display: string, result: string): (r: string)
    ensures r <= input
    ensures r != input <==> ErrorShowing(display, result) && input != []
  {
    if ErrorShowing(display, result) then [] else input
  }

  class Calculator {
    /** `currentInput`. */
    var input: string
    /** The text of `lastAnswer`. */
    var lastAnswer: string
    /** Newest entry first. */
    var history: seq<Entry>
    /** The main screen line. */
    var display: string
    /** The upper screen line. */
    var result: string

    /** A fresh calculator over the history saved by an earlier session. */
    constructor (saved: seq<Entry>)
      ensures input == [] && lastAnswer == "0" && history == saved
      ensures display == "0" && result == "0"
    {
      input := [];
      lastAnswer := "0";
      history := saved;
      display := "0";
      result := "0";
    }

    /** The click handler of a key: first the reset when an error is showing,
        then a value key is appended with operator collapsing, or a function
        key goes to `handleFunction`. `rand` is the text of the random number
        the `rand` key would insert. */
    method Press(value: string, fn: string, rand: string)
      modifies this
      ensures var start := StartBuffer(old(input), old(display), old(result));
        if value != [] then
          input == AppendValue(start, value) && display == Shown(input) && result == Shown(input)
        else if fn != [] then
          input == ApplyFunction(start, fn, AnsText(old(lastAnswer)), rand) &&
          display == Shown(input) && result == Shown(input)
        else
          input == start &&
          (ErrorShowing(old(display), old(result)) ==> display == "0" && result == "0") &&
          (!ErrorShowing(old(display), old(result)) ==> display == old(display) && result == old(result))
      ensures lastAnswer == old(lastAnswer) && history == old(history)
    {
      if display == "Error" || result == "Error" {
        input := [];
        display := Shown(input);
        result := Shown(input);
      }
      if value != [] {
        var last := if input == [] then [] else [input[|input| - 1]];
        if IsOperatorText(value) && IsOperatorText(last) {
          input := input[..|input| - 1] + value;
        } else {
          input := input + value;
        }
        result := Shown(input);
        display := Shown(input);
      } else if fn != [] {
        HandleFunction(fn, rand);
      }
    }

    /** `handleFunction`: the implicit `*`, then the edit for `fn`, then both
        screen lines show the buffer. */
    method HandleFunction(fn: string, rand: string)
      modifies this
      ensures input == ApplyFunction(old(input), fn, AnsText(old(lastAnswer)), rand)
      ensures display == Shown(input) && result == Shown(input)
      ensures lastAnswer == old(lastAnswer) && history == old(history)
    {
      if EndsOperand(input) && NeedsTimes(fn) {
        input := input + "*";
      }
      if IsCallName(fn) {
        input := input + fn + "(";
      } else if fn == "pow" {
        input := input + "**";
      } else if fn == "pi" {
        input := input + PiText;
      } else if fn == "e" {
        input := input + EText;
      } else if fn == "rand" {
        input := input + rand;
      } else if fn == "inv" {
        input := "1/(" + input + ")";
      } else if fn == "fact" {
        input := input + "!";
      } else if fn == "ans" {
        input := input + AnsText(lastAnswer);
      } else if fn == "toggle-sign" {
        if input != [] && input[0] == '-' {
          input := input[1..];
        } else {
          input := "-" + input;
        }
      }
      result := Shown(input);
      display := Shown(input);
    }

    /** The equals button: nothing on an empty buffer; otherwise the result
        line shows the expression, the display the outcome, the last answer
        takes a numeric outcome, the history gains one entry at the front, and
        the buffer becomes the outcome's text. */
    method Equals(eval: string -> Outcome)
      modifies this
      ensures old(input) == [] ==>
        input == old(input) && lastAnswer == old(lastAnswer) && history == old(history) &&
        display == old(display) && result == old(result)
      ensures old(input) != [] ==>
        var o := Calculate(old(input), eval);
        result == old(input) && display == OutcomeText(o) &&
        (o.Value? ==> lastAnswer == o.text) && (o.Error? ==> lastAnswer == old(lastAnswer)) &&
        history == [Entry(old(input), o)] + old(history) &&
        input == OutcomeText(o)
    {
      if input == [] {
        return;
      }
      var o := Calculate(input, eval);
      result := input;
      display := OutcomeText(o);
      if o != Error {
        lastAnswer := o.text;
      }
      history := [Entry(input, o)] + history;
      input := OutcomeText(o);
    }

    /** The clear button: empty buffer, both lines read `0`. */
    method Clear()
      modifies this
      ensures input == [] && result == "0" && display == "0"
      ensures lastAnswer == old(lastAnswer) && history == old(history)
    {
      input := [];
      result := "0";
      display := Shown(input);
    }

    /** The delete button: drops the last character and shows the buffer. */
    method Delete()
      modifies this
      ensures input == DeleteLast(old(input))
      ensures display == Shown(input) && result == Shown(input)
      ensures lastAnswer == old(lastAnswer) && history == old(history)
    {
      if input != [] {
        input := input[..|input| - 1];
      }
      display := Shown(input);
      result := Shown(input);
    }

    /** The clear-history button. */
    method ClearHistory()
      modifies this
      ensures history == []
      ensures input == old(input) && lastAnswer == old(lastAnswer)
      ensures display == old(display) && result == old(result)
    {
      history := [];
    }

    /** A click on the history item at position `i`: the buffer takes its
        expression and the display shows it; the result line is untouched. */
    method Reuse(i: nat)
      requires i < |history|
      modifies this
      ensures input == old(history)[i].expression && display == Shown(input)
      ensures result == old(result) && lastAnswer == old(lastAnswer) && history == old(history)
    {
      input := history[i].expression;
      display := Shown(input);
    }
  }

  /** After an equals on `expr` the display shows the outcome's text and the
      result line shows `expr`. The next key resets the buffer exactly when
      either reads `Error`; otherwise it continues from the answer's text. */
  lemma NextKeyAfterEquals(expr: string, o: Outcome)
    ensures ErrorShowing(OutcomeText(o), expr) <==> o.Error? || o.text == "Error" || expr == "Error"
    ensures !ErrorShowing(OutcomeText(o), expr) ==> StartBuffer(OutcomeText(o), OutcomeText(o), expr) == o.text
  {
  }

  /** After an error the next key starts from an empty buffer: pressing a
      digit then leaves just that digit, whatever the other screen line shows. */
  lemma KeyAfterError(input: string, display: string, result: string, value: string)
    requires ErrorShowing(display, result) && |value| == 1 && IsDigit(value[0])
    ensures AppendValue(StartBuffer(input, display, result), value) == value
  {
  }
}
