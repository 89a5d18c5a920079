# Web calculator expression-buffer engine in Dafny

This project models the engine of a browser calculator widget (`index.js`). The buttons build an expression in an input buffer (`currentInput`). The equals button pre-processes that text and hands it to the JavaScript evaluator. The result is shown on two screen lines, remembered as the last answer (`lastAnswer`) and prepended to a history of `{expression, value}` items.

The model has six modules:

- `Text`: character counting, `')'.repeat(n)` and a literal global `replace(/pat/g, rep)` (`ReplaceAll`). Matching runs left to right, matches do not overlap, and the scan resumes after each match.
- `Substitution`: the chain of ten replacements in `calculateExpression`. `÷` and `×` come first, then each function-call name becomes its `Math` counterpart. The chain is the table `Replacements`, applied in source order by `ReplaceEach`.
- `Factorials`: the `factorial` helper, a method with the source's `for` loop proved against the integer function `Fact`. Also the rewrite of `/(\d+)!/g` into the decimal text of the factorial (`RewriteFactorials`). At each position it takes the greedy digit run; when no `!` follows the run, the scan moves on by one character, as the regular-expression engine does.
- `Expression`: the rest of `calculateExpression`.
  - Auto-closing (`AutoClose`): returns no result when `)` outnumbers `(`, because `repeat` throws on a negative count.
  - `Prepare`: the whole pre-processing.
  - `Calculate`: the outcome. The evaluator (`Function(...)()`) is a parameter `eval: string -> Outcome`. An `Outcome` is the text `String` gives for the value, or `Error`.
- `Buffer`: the buffer edits as functions of the old buffer:
  - the key handler's operator collapsing (`AppendValue`);
  - every `handleFunction` key (`ApplyFunction`), including the implicit `*`, toggle-sign and `ans`;
  - delete;
  - the `buffer || '0'` text the screen lines show.
- `Engine`: the class `Calculator`. Its fields are the buffer, the last answer (kept as its text, initially `0`), the history (newest first) and the two screen lines. The key handler reads the screen lines back for its `Error` reset. The click handlers are methods that update these fields in place, each proved to produce the state the `Buffer` and `Expression` functions describe.

Some consequences of the code that a reader might not expect:

- A non-finite result is not an error: `1/0` evaluates to `Infinity`, which is shown, stored as the last answer and recorded in the history. Only a thrown exception gives `Error`. The evaluator is a parameter here, so the model takes whatever it returns.
- The rule that no two operators are ever adjacent holds only for the key handler (`AppendValueKeepsNoDoubleOperator`). `pow` appends `**` after any text, and toggle-sign can put `-` in front of a leading operator (`PowMakesDoubleOperator`, `ToggleMakesDoubleOperator`).
- The factorial rewrite only sees digit runs. The `!` of `(2+3)!` is left for the evaluator (`PrepareKeepsBang`). In `2.5!` only the `5` is taken, giving `2.120` (`RewriteFactorialsDecimal`).
- The pre-processing as a whole is not idempotent. A second pass of the name replacements would turn `Math.sin(` into `Math.Math.sin(`, and a second factorial rewrite would turn the `6!` left from `3!!` into `720`. Auto-closing is idempotent (`AutoCloseIdempotent`), and so is the `÷`/`×` step, whose results hold neither symbol.

## Model

| member | source | states |
|---|---|---|
| `Text.Count` | index.js:217-218 | the number of matches of one character is at most the length, and is zero exactly when the character is absent |
| `Text.CountConcat` | index.js:217-218 | the count of a concatenation is the sum of the counts |
| `Text.Repeat` | index.js:219 | `')'.repeat(n)` has length n and every character is `)` |
| `Text.RepeatCount` | index.js:219 | `')'.repeat(n)` holds n closing parentheses and nothing else |
| `Text.ReplaceAll` | index.js:222-232 | `replace(/pat/g, rep)` for a literal pattern: every character of the result comes from the string or from the replacement |
| `Text.ReplaceAllCount` | index.js:222-232 | a global replacement whose pattern and replacement hold a character equally often keeps that character's count |
| `Text.ReplaceAllAbsent` | index.js:223-224 | replacing every `c` by a text without `c` leaves no `c`, and such a replacement never brings one in |
| `Text.ReplaceAllMissing` | index.js:225-232 | a pattern holding a character the string lacks never matches; the string is unchanged |
| `Text.ReplaceAllFront` | index.js:225-232 | a match at the front is replaced and the scan resumes right after it |
| `Text.ReplaceAllPrefix` | index.js:225-232 | a prefix in which no match can start is copied, and the rest is replaced as if the prefix were not there |
| `Text.ReplaceAllSplit` | index.js:222-232 | when the second part starts with a character no match holds past its first position, no match straddles the parts and the global replacement splits over the concatenation |
| `Text.ReplaceAllPassOver` | index.js:222-232 | a stretch in which only one character could start a match, broken by the character after it, is copied whole |
| `Substitution.ReplaceEach` | index.js:222-232 | the chained replacements: a character the string did not hold can only come from one of the replacement texts |
| `Substitution.ReplaceEachCount` | index.js:222-232 | a chain of replacements that each keep a character's count keeps it |
| `Substitution.ReplaceEachAbsent` | index.js:222-232 | a character that one step removes and no replacement text holds is gone after the chain |
| `Substitution.ReplacementsKeepParens` | index.js:223-232 | the table `Replacements` holds the ten pairs in source order, and each pair holds as many `(` and `)` on both sides |
| `Substitution.Substitute` | index.js:222-232 | the ten replacements keep the number of `(` and of `)`, and leave no `÷` or `×` |
| `Substitution.ChainKeepsParens` | index.js:222-232 | the chain over the ten-pair table keeps both parenthesis counts |
| `Substitution.ChainRemovesDisplaySymbols` | index.js:223-224 | no `÷` or `×` survives the chain over the ten-pair table |
| `Substitution.SubstitutePlain` | index.js:222-232 | text without letters or display symbols passes through unchanged |
| `Substitution.SkipToLog` | index.js:223-227 | the steps before `log(`'s own pass over text without display symbols and without `s`, `c`, `t` |
| `Substitution.SkipFromLog` | index.js:228-232 | the steps from `log(`'s own on pass over text without `l`, `q`, `b`, `x` |
| `Substitution.SkipTail` | index.js:230-232 | the sqrt, abs and exp steps pass over text without `q`, `b`, `x` |
| `Substitution.SkipStep` | index.js:222-232 | a step whose pattern holds a character the text lacks leaves the text to the rest of the chain |
| `Substitution.StepOver` | index.js:222-232 | one global replacement over `p + tok + x`, where no match can run from p into the token, is the replacement of p followed by that of `tok + x` |
| `Expression.LogTokenStep` | index.js:223-232 | each step passes over a typed `log(` (or the `Math.log10(` it has become) and replaces only in the text after it, except `log(`'s own step, which renames it; `ln(` cannot fire at the `l` of `log10(` and `abs(` not at the `a` of `Math` |
| `Expression.LnTokenStep` | index.js:223-232 | each step passes over a typed `ln(` (or the `Math.log(` it has become) and replaces only in the text after it, except `ln(`'s own step, which renames it; `log(` cannot fire at the `l` of `ln(` |
| `Expression.LnPassesLog10` | index.js:228-229 | the `ln(` replacement never matches inside the `Math.log10(` that the `log(` replacement produced |
| `Expression.LogChain` | index.js:223-232 | from any step on, the text before a `log(` and the text after it go through the remaining steps on their own, and the call ends as `Math.log10(` |
| `Expression.LnChain` | index.js:223-232 | from any step on, the text before an `ln(` and the text after it go through the remaining steps on their own, and the call ends as `Math.log(` |
| `Expression.SubstituteLog` | index.js:228 | every `log(` becomes the base-10 `Math.log10(`: for all texts p and x, the substitution of `p + "log(" + x` is that of p, then `Math.log10(`, then that of x |
| `Expression.SubstituteLn` | index.js:229 | every `ln(` becomes the natural `Math.log(`: for all texts p and x, the substitution of `p + "ln(" + x` is that of p, then `Math.log(`, then that of x |
| `Expression.SubstituteLogThenLn` | index.js:228-229 | both logarithms in one buffer are renamed, as in `log(100)+ln(2)`, and `log(ln(5))` when nothing separates them |
| `Factorials.Fact` | index.js:245-247 | n! is at least 1 and at least n |
| `Factorials.Factorial` | index.js:243-249 | NaN for a negative argument, otherwise the product 2·…·n (1 for 0 and 1); the loop keeps `res == (i-1)!` |
| `Factorials.FactExamples` | index.js:243-249 | 0! = 1! = 1 and 5! = 120 |
| `Factorials.DigitsValue` | index.js:233 | `Number` of a digit run is zero exactly when every digit is `0`; `NatToStringRoundTrip` is its inverse |
| `Factorials.NatToString` | index.js:233 | the decimal text of a number is non-empty, all digits and has no leading zero |
| `Factorials.NatToStringRoundTrip` | index.js:233 | reading back the decimal text of n gives n |
| `Factorials.DigitRun` | index.js:233 | `\d+` is greedy: the run is all digits and is followed by a non-digit or the end |
| `Factorials.RewriteFactorials` | index.js:233 | the rewrite brings in nothing but digits, and a text without `!` is left alone |
| `Factorials.DigitBangsSkipRun` | index.js:233 | inside a digit run no digit is followed by `!` |
| `Factorials.RewriteFactorialsBangs` | index.js:233 | the rewrite removes exactly the `!` that directly follow a digit; every other `!` survives |
| `Factorials.RewriteFactorialsKeeps` | index.js:233 | every character other than digits and `!` keeps its count, parentheses included |
| `Factorials.RewriteFactorialsFixed` | index.js:233 | the rewrite leaves a text alone exactly when no `!` follows a digit |
| `Factorials.NoDigitBangUnchanged` | index.js:233 | without a digit followed by `!` the text is unchanged |
| `Factorials.DigitRunOfDigits` | index.js:233 | the greedy run over digits followed by a non-digit is all of them |
| `Factorials.DigitRunPrefix` | index.js:233 | a digit run starting in a text that does not end with a digit stays inside it |
| `Factorials.RewriteFactorialsSplit` | index.js:233 | no match reaches across the end of a text that does not end with a digit, so such a text is rewritten on its own |
| `Factorials.RewriteFactorialsMatch` | index.js:233 | `<digits>!` anywhere after the start, an operator or a parenthesis becomes the decimal text of its factorial, with the texts on both sides rewritten on their own (`2+3!` gives `2+6`, `3!*2` gives `6*2`) |
| `Factorials.RewriteFactorialsNumber` | index.js:233 | `<digits>!` alone becomes the decimal text of the factorial of the digits' value |
| `Factorials.RewriteFactorialsFive` | index.js:233 | `5!` becomes `120` |
| `Factorials.RewriteFactorialsDecimal` | index.js:233 | `2.5!` becomes `2.120`: only the digits after the point are taken |
| `Expression.AutoClose` | index.js:216-219 | a result exists exactly when `(` is not outnumbered by `)`; it extends the input with `)` only and has equal counts |
| `Expression.AutoCloseIdempotent` | index.js:216-219 | auto-closing an auto-closed text changes nothing |
| `Expression.Prepare` | index.js:214-233 | the prepared text exists exactly when `(` is not outnumbered by `)`; it is balanced and holds no `÷` or `×` |
| `Expression.Calculate` | index.js:214-240 | an expression with surplus `)` yields `Error`; otherwise the outcome is the evaluator's on a balanced text |
| `Expression.PrepareNumberFactorial` | index.js:233 | a number followed by `!` reaches the evaluator as the decimal text of its factorial |
| `Expression.CallCloses` | index.js:216-219 | a text with one unmatched `(` before a balanced argument gets exactly one `)` |
| `Expression.AutoCloseOne` | index.js:216-219 | one surplus `(` gets one closer |
| `Expression.PrepareLogCall` | index.js:214-233 | `log(` after a balanced plain text (such as `5*`) and before a balanced plain argument reaches the evaluator as the closed base-10 call `Math.log10(…)`, the text before it unchanged |
| `Expression.PrepareLnCall` | index.js:214-233 | `ln(` after a balanced plain text and before a balanced plain argument reaches the evaluator as the closed natural-log call `Math.log(…)` |
| `Expression.PrepareFactorial` | index.js:233 | `5!` reaches the evaluator as `120` |
| `Expression.PrepareKeepsBang` | index.js:233 | `(2+3)!` keeps its `!` |
| `Expression.PrepareRejects` | index.js:219 | `2)` has no prepared text (the repeat throws) |
| `Buffer.LastChar` | index.js:101 | `slice(-1)` is the buffer's suffix of length one, or empty for the empty buffer |
| `Buffer.Collapses` | index.js:103-106 | a key collapses exactly when it is a single operator and the buffer is non-empty and ends with an operator |
| `Buffer.AppendValue` | index.js:100-110 | a second operator in a row replaces only the last character (same length, earlier characters kept); any other value is appended |
| `Buffer.OperatorPressesCollapse` | index.js:103-107 | two operator keys in a row leave the buffer as the second alone would |
| `Buffer.AppendValueKeepsNoDoubleOperator` | index.js:100-110 | one-character keys never make two operators adjacent |
| `Buffer.DeleteLast` | index.js:148 | delete removes exactly the last character and leaves the empty buffer empty |
| `Buffer.DeleteUndoesAppend` | index.js:148 | delete undoes a one-character key that did not collapse |
| `Buffer.DeleteAfterCollapse` | index.js:148 | delete after a collapsed operator removes the operator altogether |
| `Buffer.Shown` | index.js:174 | a screen line shows the buffer, or `0` for the empty buffer, and is never empty |
| `Buffer.AnsText` | index.js:299 | `ans` never inserts an empty text or a falsy value's text: `0` for a falsy last answer, its own text otherwise |
| `Buffer.ToggleSign` | index.js:302-306 | toggle-sign strips exactly one leading `-`, or prepends one |
| `Buffer.ToggleTwice` | index.js:302-306 | toggling twice restores the buffer exactly when it does not start with `--` |
| `Buffer.ToggleExample` | index.js:302-306 | `5+3` toggles to `-5+3` and back |
| `Buffer.ApplyFunction` | index.js:252-307 | every key but inv and toggle-sign keeps the old buffer as a prefix; an unknown name leaves the buffer unchanged |
| `Buffer.ImplicitTimes` | index.js:255-271 | a call key adds `*` exactly for sin, cos, tan, log, sqrt after a digit or `)`; otherwise it appends only `name(` |
| `Buffer.ImplicitTimesExamples` | index.js:255-271 | `5` with sin gives `5*sin(`, `(1+2)` with sqrt gives `(1+2)*sqrt(`, `5` with ln gives `5ln(` |
| `Buffer.InvKeepsParenSurplus` | index.js:290-292 | inv wraps the buffer as `1/(…)` and keeps the surplus of `(` over `)` |
| `Buffer.PostfixKeys` | index.js:274-299 | fact appends `!`, pow `**`, ans and rand their texts, to any buffer |
| `Buffer.PowMakesDoubleOperator` | index.js:274-276 | pow after a digit makes two adjacent operators |
| `Buffer.ToggleMakesDoubleOperator` | index.js:302-306 | toggle-sign before a leading operator makes two adjacent operators |
| `Engine.OutcomeText` | index.js:126-133 | the text a screen line or the buffer takes reads `Error` exactly for the error marker or an evaluator text that is itself `Error` |
| `Engine.StartBuffer` | index.js:93-97 | the buffer a key starts from is a prefix of the buffer and differs from it exactly when an error is showing over a non-empty buffer |
| `Engine.NextKeyAfterEquals` | index.js:94-98 | after an equals the next key resets the buffer exactly when the outcome is an error (or a line reads `Error`), and otherwise continues from the answer's text |
| `Engine.Calculator.constructor` | index.js:37-40 | empty buffer, last answer `0`, the saved history |
| `Engine.Calculator.Press` | index.js:91-118 | after the error reset a value key collapses or appends and a function key runs `handleFunction`; both lines then show the buffer; nothing else changes |
| `Engine.Calculator.HandleFunction` | index.js:252-311 | the buffer becomes `ApplyFunction` of the old one with the last answer's `ans` text; both lines show it |
| `Engine.Calculator.Equals` | index.js:122-136 | nothing on an empty buffer; otherwise one entry (old buffer, outcome) is prepended with older entries kept in order, the last answer changes only on a non-error outcome, and the buffer becomes the outcome's text |
| `Engine.Calculator.Clear` | index.js:140-144 | the buffer empties and both lines read `0`; history and last answer untouched |
| `Engine.Calculator.Delete` | index.js:147-151 | the buffer loses its last character and both lines show it |
| `Engine.Calculator.ClearHistory` | index.js:161-165 | the history empties and nothing else changes |
| `Engine.Calculator.Reuse` | index.js:201-204 | the buffer takes the chosen item's expression and the display shows it; the result line is untouched |
| `Engine.KeyAfterError` | index.js:94-110 | after an error a digit key leaves the buffer holding just that digit, whatever either screen line holds |

## Left out

- DOM rendering, scrolling, the settings and history panels, theme and language switching with its translation dictionary, and the click sound are left out. These are user-interface work with no effect on the engine's state.
- `localStorage` and the JSON form of the history are left out. The history is an in-memory sequence, and the constructor takes the saved one as a parameter.
- The evaluator `Function('"use strict"; return (' + expr + ')')()` is a parameter. It stands in for JavaScript evaluation over IEEE floating point.
- The text of `Math.random()` is a parameter of `Press` and `HandleFunction`. `Math.PI` and `Math.E` are their fixed `toString` texts.
- Number values are carried as the text `String` gives for them. `IsFalsyText` lists the texts of the falsy values `lastAnswer || 0` replaces by 0.
- Factorials.RewriteFactorials: computes `factorial` over unbounded integers and writes the exact decimal text. The source multiplies IEEE doubles and formats the result with `String`. The products are exact through 22!, and `String` writes them in full below 10^21, so the texts agree up to 21!. From 22! on the source writes exponent notation (`1.1240007277776077e+21`), from 23! its products are rounded, and beyond 170! it gives `Infinity`. For n of 2^53 or more the source's `i++` loop never ends, since `i` stops growing; even an n near 10^11 keeps the page busy for a long time. The model returns at once. `Number(n)` on very long digit runs rounds the same way.
- Buffer.ApplyFunction: `rand` inserts the random number's text as given. The model does not constrain it to a number in [0, 1).
- The history item rendered on screen (`${expression} = ${value}`) and the screen lines' initial text are display details. The screen lines start as `0`.
