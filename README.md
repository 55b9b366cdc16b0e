# SimpleTypeCodeGame, modelled and verified in Dafny

This project models the browser typing game `SimpleTypeCodeGame`. A round
shows ten lines of HTML or CSS taken from a fixed code database, one at a
time. The player retypes each line. Pressing Enter submits it:

- if the trimmed input equals the line, the game moves on to the next line;
- otherwise it counts a mistake.

Every keystroke redraws the current line, with each character marked typed,
wrong or still to type, and a live preview of what has been typed. After
the tenth line the game shows a message chosen by accuracy.

The model has six modules:

- `JsString`: `String.prototype.trim` and the decimal rendering of counters.
- `Markup`: `escapeHtml`, with a decoder as its partner.
- `Sanitize`: the two preview sanitisers. Each is a chain of global,
  case-insensitive regular-expression removals, modelled as a left-to-right
  scan with hand-written matchers for the three patterns.
- `Feedback`: the per-character annotation of `updateDisplay`. Its loop is
  a method proved against a specification function, and a parser reads the
  markup back.
- `Scoring`: the progress text, the accuracy score in integer round-half-up
  arithmetic, and the message tier.
- `TypingGame`: the code database and the page as a record (`Dom`). The
  session is the class `Game`, whose methods update its fields step by
  step as the game's methods do.

Each `Game` method is specified by a function on `View()`, the value of the
whole state. The properties of a round are stated as lemmas about those
functions:

- correct and wrong submission;
- the end of the round;
- reset, and that reset is idempotent;
- start;
- line selection;
- an invariant that every key press and every edit of the input preserves;
- a perfect round ends with the perfect message.

Some behaviour of the code is worth stating on its own:

- **Accuracy.** The code computes the score over `correctLines + errors`
  attempts, rounds it to an integer and writes only the message
  (`app/javascript/typing_game.js:253-268`). The Jest test at
  `app/javascript/typing_game.test.js:280-291` expects `8 / 10` and
  `80.0%` in the message, and the test calls a `loadProblems()` method
  (`app/javascript/typing_game.test.js:77`); the game code has neither.
  The model follows the game code, whose problem data is the constant
  `codeDatabase`.
- **Multi-line scripts.** The script pattern `/<script[^>]*>.*?<\/script>/gi`
  has no `s` flag, so `.` does not cross a line break. A script element
  written over two lines stays in the preview
  (`Sanitize.MultiLineScriptKept`).
- **Nested patterns.** A single removal pass can create a new occurrence,
  so the model states only that matches found left to right are removed
  and that input without a match is unchanged
  (`Sanitize.RemovalCanLeaveMatch`).

A few external inputs become parameters:

- The random shuffle of `loadCode` is a parameter `shuffled`, required to
  be a permutation of the language's lines.
- The value of the input area is a parameter of `CheckLine`.
- `updateDisplay` reads the missing line `undefined` when the index is
  past the selected lines, and reading its length throws a `TypeError`.
  The model returns this as a flag `threw`. Field updates made before the
  throw are kept, and the throw ends the calling method, as the exception
  would.

## Model

| member | source | states |
|---|---|---|
| `TypingGame.CodeDatabase` | app/javascript/typing_game.js:2-27 | each language has exactly totalLines (ten) lines |
| `TypingGame.Game.constructor` | app/javascript/typing_game.js:30-36 | a new game has no lines, zero counters and is not playing |
| `TypingGame.InitialValid` | app/javascript/typing_game.js:30-36 | the state after construction satisfies the game invariant and no round is on |
| `TypingGame.Initial` | app/javascript/typing_game.js:30-36 | the state the constructor leaves: no lines, counters at zero, not playing, the page as given |
| `TypingGame.Valid` | app/javascript/typing_game.js:30-36 | the game invariant: the index is at most totalLines and equals the correct-line count, the lines are none or a full round, and during a round the lines are loaded, a line is left, input is enabled and results are hidden |
| `TypingGame.SpaceOf` | app/javascript/typing_game.js:49-54 | the Space listener as a function of the state: startGame unless a round is on |
| `TypingGame.Game.HandleSpace` | app/javascript/typing_game.js:49-54 | the Space key starts a game only when none is playing; the new state is SpaceOf of the old |
| `TypingGame.SpaceValid` | app/javascript/typing_game.js:49-54 | Space keeps the invariant, never throws, leaves a round in play, and during a round changes nothing |
| `TypingGame.InputOf` | app/javascript/typing_game.js:58 | the `input` listener as a function of the state: the input area holds the value, then updateDisplay |
| `TypingGame.Game.HandleInput` | app/javascript/typing_game.js:58 | sets the input value and runs updateDisplay; the new state and the throw flag are InputOf of the old state |
| `TypingGame.InputValid` | app/javascript/typing_game.js:58 | typing keeps the invariant, the counters, the lines and the playing flag; during a round it does not throw and shows the current line annotated against the typed text, and that text's preview |
| `TypingGame.Game.StartGame` | app/javascript/typing_game.js:61-72 | startGame runs resetStats, loadCode, sets playing, enables input, hides results, then updateDisplay and updateStats; new state is StartOf of the old |
| `TypingGame.StartOf` | app/javascript/typing_game.js:61-72 | startGame as a function of the state: resetStats, loadCode, play on, input enabled, results hidden, updateDisplay, then updateStats unless updateDisplay threw |
| `TypingGame.Start` | app/javascript/typing_game.js:61-72 | after start: counters 0, playing, input enabled, results hidden, progress "0/10", lines a permutation of the language's, first line displayed, no throw, invariant holds |
| `TypingGame.Game.ResetGame` | app/javascript/typing_game.js:74-84 | resetGame's steps; new state is ResetGameOf of the old |
| `TypingGame.ResetGameOf` | app/javascript/typing_game.js:74-84 | resetGame as a function of the state |
| `TypingGame.ResetGame` | app/javascript/typing_game.js:74-84 | after reset: counters 0, not playing, input disabled and empty, results hidden, start prompt shown, progress "0/10", lines and language kept, invariant preserved |
| `TypingGame.ResetGameIdempotent` | app/javascript/typing_game.js:74-84 | resetting twice is resetting once |
| `TypingGame.Game.ResetStats` | app/javascript/typing_game.js:86-91 | resetStats zeroes index, correct lines and errors and refreshes progress |
| `TypingGame.ResetStatsOf` | app/javascript/typing_game.js:86-91 | index, correct and errors are 0, the lines and playing flag are kept, only the progress text of the page changes |
| `TypingGame.ResetStatsIdempotent` | app/javascript/typing_game.js:86-91 | resetStats twice is resetStats once |
| `TypingGame.Game.LoadCode` | app/javascript/typing_game.js:93-101 | currentCode becomes the first totalLines lines of the shuffled copy |
| `TypingGame.LoadCodeOf` | app/javascript/typing_game.js:93-101 | loadCode as a function of the state: only the lines change |
| `TypingGame.SelectLines` | app/javascript/typing_game.js:99-100 | `slice(0, n)` gives min(n, length) elements and they are a prefix of the shuffled copy |
| `TypingGame.LineSelection` | app/javascript/typing_game.js:93-101 | for any permutation of a source: min(totalLines, source size) lines, a prefix of the permutation, a sub-multiset of the source, and none from an empty source |
| `TypingGame.RoundUsesEveryLine` | app/javascript/typing_game.js:93-101 | with the game's database of ten lines, the round uses every line of the language exactly once |
| `TypingGame.Game.HandleKeyDown` | app/javascript/typing_game.js:103-110 | key presses are ignored when not playing; Enter runs checkLine; new state is KeyDownOf of the old |
| `TypingGame.KeyDownOf` | app/javascript/typing_game.js:103-110 | handleKeyDown as a function of the state: ignored outside a round, Enter runs checkLine, other keys do nothing |
| `TypingGame.KeyDownValid` | app/javascript/typing_game.js:103-110 | every key press keeps the invariant, never throws during a round, and changes nothing outside one |
| `TypingGame.Game.CheckLine` | app/javascript/typing_game.js:112-125 | checkLine's steps: trim, compare with the current line, count, nextLine, updateStats, updateDisplay; new state is CheckLineOf of the old |
| `TypingGame.Accepts` | app/javascript/typing_game.js:113-116 | the trimmed input equals the current line; a missing line never matches |
| `TypingGame.Entered` | app/javascript/typing_game.js:113 | the input area holds the submitted value |
| `TypingGame.CheckLineOf` | app/javascript/typing_game.js:112-125 | checkLine as a function of the state: on a match AcceptOf, otherwise one more error, updateStats and updateDisplay |
| `TypingGame.AcceptOf` | app/javascript/typing_game.js:116-124 | a match: one more correct line, nextLine, and unless it threw updateStats and updateDisplay |
| `TypingGame.AcceptedSteps` | app/javascript/typing_game.js:112-151 | after a match, checkLine is: advance, then either end the round and refresh stats, or display the next line, refresh stats and display again |
| `TypingGame.CorrectSubmission` | app/javascript/typing_game.js:112-118 | a trimmed exact match: correct lines +1, index +1, errors unchanged, input cleared, lines kept, progress shows the new count, invariant preserved, no throw |
| `TypingGame.WrongSubmission` | app/javascript/typing_game.js:116-124 | a mismatch: errors +1, index, correct lines, lines and playing unchanged, the input stays, the display marks it, the preview shows it, invariant preserved, no throw |
| `TypingGame.Game.NextLine` | app/javascript/typing_game.js:127-151 | nextLine's steps: index +1, input cleared, preview blanked per language, then endGame or updateDisplay; new state is NextLineOf of the old |
| `TypingGame.NextLineOf` | app/javascript/typing_game.js:127-151 | nextLine as a function of the state: Advanced, then endGame at totalLines, else updateDisplay |
| `TypingGame.Advanced` | app/javascript/typing_game.js:128-143 | the index moves on by one, the input is cleared and the preview is blanked for the language |
| `TypingGame.BlankPreview` | app/javascript/typing_game.js:133-143 | the unstyled CSS box for CSS, the HTML prompt otherwise |
| `TypingGame.BlankPreviewIsEmptyInput` | app/javascript/typing_game.js:131-143 | the preview nextLine restores is the preview of an empty input |
| `TypingGame.BlankCssPreview` | app/javascript/typing_game.js:135 | the CSS preview of the empty string is the unstyled box |
| `TypingGame.RoundEnd` | app/javascript/typing_game.js:145-147 | accepting the last line ends the round: not playing, input disabled, results shown with the message for ten correct lines and the mistakes, invariant preserved |
| `TypingGame.RoundContinues` | app/javascript/typing_game.js:145-150 | accepting an earlier line keeps the round in play, shows the next line with nothing typed and the blank preview |
| `TypingGame.FinishRound` | app/javascript/typing_game.js:112-151 | typing the remaining lines correctly (any surrounding white space) ends the round with ten correct lines, the earlier mistakes, and the message for them |
| `TypingGame.Submit` | app/javascript/typing_game.js:103-125 | a sequence of Enter presses with the given input values |
| `TypingGame.PerfectRound` | app/javascript/typing_game.js:61-151 | a round typed without a mistake from its start ends with zero errors and the perfect message |
| `TypingGame.Game.UpdateDisplay` | app/javascript/typing_game.js:153-183 | updateDisplay (also the input handler): nothing once the index reaches totalLines, a throw past the loaded lines, otherwise the annotated line and the preview; new state is DisplayOf of the old |
| `TypingGame.DisplayOf` | app/javascript/typing_game.js:153-183 | updateDisplay as a function of the state: nothing at totalLines, the TypeError past the loaded lines, otherwise the annotated line and its preview |
| `TypingGame.LineMarkup` | app/javascript/typing_game.js:160-179 | the code display for a line and the typed text: the current-line element holding the annotated spans |
| `TypingGame.DisplayValid` | app/javascript/typing_game.js:153-183 | updateDisplay keeps the invariant and does not throw during a round |
| `TypingGame.DisplayAfterEnd` | app/javascript/typing_game.js:156-158 | when the index is at least totalLines, updateDisplay changes nothing and does not throw |
| `Feedback.Annotate` | app/javascript/typing_game.js:164-177 | one cell per character of the line, showing that character |
| `Feedback.MarkAt` | app/javascript/typing_game.js:168-176 | typed where the input reaches the position and agrees, error where it reaches and differs, pending beyond it |
| `Feedback.AnnotateMarks` | app/javascript/typing_game.js:168-176 | typed iff the input reaches the position and agrees there; error iff it reaches and differs; pending iff it does not reach |
| `Feedback.FormatLine` | app/javascript/typing_game.js:163-177 | the loop builds exactly the markup of the annotation, span after span |
| `Feedback.SpanFor` | app/javascript/typing_game.js:166-175 | the span of one cell: the opening tag of its mark, the character as written, the closing tag |
| `Feedback.Render` | app/javascript/typing_game.js:163-177 | the spans of the cells in order; FormatLine is proved to build exactly this |
| `Feedback.CurrentLineMarkup` | app/javascript/typing_game.js:179 | the annotated spans wrapped in the current-line element |
| `Feedback.RenderAppend` | app/javascript/typing_game.js:164-177 | one more character appends its span at the end |
| `Feedback.RenderStep` | app/javascript/typing_game.js:164-177 | the markup of the first i+1 cells is that of the first i followed by the span of cell i |
| `Feedback.AllTypedIff` | app/javascript/typing_game.js:168-170 | every position is marked typed iff the line is a prefix of the input |
| `Feedback.NoErrorIff` | app/javascript/typing_game.js:168-173 | no position is marked wrong iff the input and the line agree as far as both go |
| `Feedback.DisplayChar` | app/javascript/typing_game.js:166 | a character is written as non-empty text |
| `Feedback.DisplayCharNoAngle` | app/javascript/typing_game.js:166 | what a character is written as holds no "<" or ">" |
| `Feedback.DisplayCharUnescapes` | app/javascript/typing_game.js:166 | decoding what a character is written as gives the character, a space becoming a no-break space |
| `Feedback.OpenTagRead` | app/javascript/typing_game.js:170-175 | each of the three opening tags is recognised as its own mark |
| `Feedback.ParseSpanParts` | app/javascript/typing_game.js:170-175 | an opening tag, text without "<", and a closing tag read back as one span with the text's character |
| `Feedback.ParseSpanFor` | app/javascript/typing_game.js:170-175 | the span of a cell reads back as that cell's mark and shown character |
| `Feedback.ParseRender` | app/javascript/typing_game.js:163-177 | the markup of any sequence of cells reads back as those cells, as shown |
| `Feedback.FormatLineReadsBack` | app/javascript/typing_game.js:163-179 | the display of a line reads back as one span per character with the mark the input gives it |
| `Markup.EscapeChar` | app/javascript/typing_game.js:41-45 | a character is escaped, starting with "&", exactly when it is "&", "<", ">" or a no-break space; others pass as they are |
| `Markup.EscapeHtml` | app/javascript/typing_game.js:41-45 | escaping never shortens the text |
| `Markup.EscapeHtmlNoAngle` | app/javascript/typing_game.js:41-45 | escaped text holds no "<" and no ">" |
| `Markup.EscapeRoundTrip` | app/javascript/typing_game.js:41-45 | decoding escaped text gives the text back |
| `Markup.EscapeIdentity` | app/javascript/typing_game.js:41-45 | escaping leaves text unchanged iff it holds none of the four special characters |
| `Markup.DecodeEscaped` | app/javascript/typing_game.js:41-45 | the decoder reads one escaped character back with its length |
| `Markup.UnescapeChar` | app/javascript/typing_game.js:41-45 | the decoder reads one escaped character and continues with the rest |
| `Markup.DecodeOne` | app/javascript/typing_game.js:41-45 | the decoder always consumes at least one and at most all characters |
| `TypingGame.Game.UpdatePreview` | app/javascript/typing_game.js:185-202 | updatePreview sets only the preview, to PreviewFor the language and input |
| `TypingGame.PreviewFor` | app/javascript/typing_game.js:185-202 | CSS always gives the style box; HTML gives the prompt iff the trimmed input is empty and never a style box; what is shown is a subsequence of the input |
| `TypingGame.Game.UpdateHtmlPreview` | app/javascript/typing_game.js:204-216 | the preview becomes the sanitised markup |
| `TypingGame.HtmlPreview` | app/javascript/typing_game.js:207-212 | the HTML preview shows a subsequence of the input |
| `TypingGame.HtmlPreviewOfCleanInput` | app/javascript/typing_game.js:200-212 | non-blank input with none of the three patterns is shown as typed |
| `TypingGame.Game.UpdateCssPreview` | app/javascript/typing_game.js:218-240 | the preview becomes the style box for the input |
| `TypingGame.CssPreview` | app/javascript/typing_game.js:218-232 | a style box whose style is a subsequence of the input, and empty for blank input |
| `Sanitize.SafeHtml` | app/javascript/typing_game.js:207-210 | the three removals in order keep a subsequence of the input |
| `Sanitize.SafeCss` | app/javascript/typing_game.js:227 | the two removals in order keep a subsequence of the input |
| `Sanitize.SafeHtmlUnchangedIff` | app/javascript/typing_game.js:207-210 | the HTML sanitiser leaves input unchanged iff none of the three patterns matches anywhere |
| `Sanitize.SafeCssUnchangedIff` | app/javascript/typing_game.js:227 | the CSS sanitiser leaves input unchanged iff neither pattern matches anywhere |
| `Sanitize.MatchAt` | app/javascript/typing_game.js:208-210 | a match is non-empty and inside the string |
| `Sanitize.RemoveAll` | app/javascript/typing_game.js:207-210 | a global `replace(re, '')`: a match at the scan position is dropped, otherwise one character is kept; its properties are the RemoveAll lemmas below |
| `Sanitize.ScriptMatch` | app/javascript/typing_game.js:208 | a `<script[^>]*>.*?<\/script>` match is non-empty and inside the string |
| `Sanitize.EventHandlerMatch` | app/javascript/typing_game.js:209 | an `on\w+="[^"]*"` match is non-empty and inside the string |
| `Sanitize.Matches` | app/javascript/typing_game.js:208-210 | every pattern's matcher makes progress |
| `Sanitize.IndexOf` | app/javascript/typing_game.js:208 | the first position at or after a start holding a character, or none |
| `Sanitize.ScriptCloseFrom` | app/javascript/typing_game.js:208 | the position where the lazy tail ends lies at least nine characters on and inside the string |
| `Sanitize.ScriptCloseFromFirst` | app/javascript/typing_game.js:208 | the lazy tail ends just after a "</script>" in any case, the first one from its start, with no line terminator before it |
| `Sanitize.WordRun` | app/javascript/typing_game.js:209 | the maximal run of word characters |
| `Sanitize.LiteralMatch` | app/javascript/typing_game.js:210 | a literal match is non-empty and inside the string |
| `Sanitize.RemoveAllIsSubsequence` | app/javascript/typing_game.js:207-210 | a removal only deletes characters, keeping the order |
| `Sanitize.RemoveAllFirstMatch` | app/javascript/typing_game.js:207-210 | the text before the left-most match is kept, the match dropped, and the scan resumes after it |
| `Sanitize.RemoveAllNoMatch` | app/javascript/typing_game.js:207-210 | input with no match is unchanged |
| `Sanitize.RemoveAllShortens` | app/javascript/typing_game.js:207-210 | a removal never lengthens and shortens whenever a match exists |
| `Sanitize.RemoveAllUnchangedIff` | app/javascript/typing_game.js:207-210 | a removal changes its input iff some match exists |
| `Sanitize.NoMatchBeforeIff` | app/javascript/typing_game.js:207-210 | no match before i means no match at any position before i |
| `Sanitize.SubsequenceTransitive` | app/javascript/typing_game.js:207-210 | deletions compose across the chained replacements |
| `Sanitize.ScriptElementMatch` | app/javascript/typing_game.js:208 | an opening tag without ">", content with no "<" and no line break, and "</script>" is matched as a whole |
| `Sanitize.EventHandlerAttributeMatch` | app/javascript/typing_game.js:209 | "on", a non-empty name of word characters, `="`, a value without `"`, and `"` is matched as a whole |
| `Sanitize.EventHandlerRemovedExample` | app/javascript/typing_game.js:207-210 | `<p onclick="x">ok</p>` is shown as `<p >ok</p>` |
| `Sanitize.ScriptRemovedExample` | app/javascript/typing_game.js:208-210 | "<script>alert(1)</script><b>" is shown as "<b>" |
| `Sanitize.MultiLineScriptKept` | app/javascript/typing_game.js:208 | a script element broken over two lines is not removed |
| `Sanitize.KeepsPlain` | app/javascript/typing_game.js:207-210 | text in which a pattern's first two characters never occur together passes that removal unchanged |
| `Sanitize.CssExpressionExample` | app/javascript/typing_game.js:227 | "color:expression(x)" is styled as "color:x)" |
| `Sanitize.RemovalCanLeaveMatch` | app/javascript/typing_game.js:227 | removing "expression(" from "expresexpression(sion(" leaves "expression(", which still matches |
| `TypingGame.Game.UpdateStats` | app/javascript/typing_game.js:242-244 | the progress text becomes the correct count over totalLines |
| `TypingGame.WithStats` | app/javascript/typing_game.js:242-244 | updateStats as a function of the state: only the progress text changes |
| `Scoring.ProgressText` | app/javascript/typing_game.js:243 | `${correctLines}/${totalLines}`; Scoring.ProgressRoundTrip shows it names both numbers |
| `Scoring.ProgressRoundTrip` | app/javascript/typing_game.js:243 | the progress text `${correct}/${total}` reads back as the two numbers |
| `JsString.NatToString` | app/javascript/typing_game.js:243 | a number is written as non-empty decimal digits without a leading zero |
| `JsString.NatToStringRoundTrip` | app/javascript/typing_game.js:243 | the digits of a number denote that number |
| `JsString.NatToStringInjective` | app/javascript/typing_game.js:243 | different numbers are written differently |
| `TypingGame.Game.EndGame` | app/javascript/typing_game.js:246-251 | endGame stops play, disables input and shows the results |
| `TypingGame.EndOf` | app/javascript/typing_game.js:246-251 | endGame as a function of the state: not playing, input disabled, then showResults |
| `TypingGame.Game.ShowResults` | app/javascript/typing_game.js:253-271 | the result message is the tier message for the accuracy, and the results become visible |
| `TypingGame.ShowResultsOf` | app/javascript/typing_game.js:253-271 | showResults as a function of the state: the tier message for the accuracy, results visible |
| `Scoring.Accuracy` | app/javascript/typing_game.js:254-255 | at most 100, 100 with no attempts, otherwise the integer r with (2r-1)t <= 200c < (2r+1)t, that is c/t*100 rounded half up |
| `Scoring.AccuracyUnique` | app/javascript/typing_game.js:254-255 | any integer rounding the share that way is the accuracy |
| `Scoring.PerfectIff` | app/javascript/typing_game.js:255-258 | the accuracy is 100 iff correct lines are at least 199 times the errors |
| `Scoring.AccuracyAntitone` | app/javascript/typing_game.js:254-255 | one more mistake never raises the accuracy |
| `Scoring.TierOf` | app/javascript/typing_game.js:258-266 | perfect iff 100, very good iff 90 to 99, good iff 80 to 89, keep practising iff below 80 |
| `Scoring.TierMonotone` | app/javascript/typing_game.js:258-266 | a higher accuracy never gives a lower tier |
| `Scoring.Message` | app/javascript/typing_game.js:256-266 | each tier has its non-empty message |
| `Scoring.RoundTier` | app/javascript/typing_game.js:254-266 | with ten correct lines: no mistake is perfect, one very good, two good, more keep practising |
| `JsString.Trim` | app/javascript/typing_game.js:113 | trim never lengthens, and what it keeps neither starts nor ends with white space |
| `JsString.TrimIsInfix` | app/javascript/typing_game.js:113 | what trim keeps is an infix of the input with only white space around it |
| `JsString.TrimIgnoresPadding` | app/javascript/typing_game.js:113 | white space around a line does not change what trim returns |
| `JsString.TrimIdempotent` | app/javascript/typing_game.js:113 | trimming twice is trimming once |
| `JsString.TrimUnpadded` | app/javascript/typing_game.js:113 | a string without white space at either end is its own trim |
| `JsString.TrimStart` | app/javascript/typing_game.js:113 | the result does not start with white space |
| `JsString.TrimEnd` | app/javascript/typing_game.js:113 | the result does not end with white space |
| `JsString.TrimStartIsSuffix` | app/javascript/typing_game.js:113 | the leading part removed is all white space and what remains is a suffix |
| `JsString.TrimEndIsPrefix` | app/javascript/typing_game.js:113 | the trailing part removed is all white space and what remains is a prefix |

## Left out

- The DOM and the event wiring (`initEventListeners`, `getElementById`, `focus`, `scrollIntoView`, `preventDefault` and the `DOMContentLoaded` hook). The page is a record, and each handler is a method taking the key or the value as a parameter.
- `Math.random` and the random sort comparator. The shuffled copy is a parameter of `LoadCode`, `StartGame` and `HandleSpace`. The lemmas require it to be a permutation of the language's lines; they make no statement about how likely each order is.
- Applying the style text through `cssBox.style.cssText`, the browser's CSS and HTML parsing, and the `try`/`catch` fallbacks of both previews. The preview is the sanitised string only.
- The box's class name and its text `プレビュー` are not represented. `CssBox` stands for that element.
- The two HTML placeholder literals (`app/javascript/typing_game.js:138-142` and `193-197`) differ only in indentation, and both render the same prompt. The model uses the single value `HtmlPrompt` for both.
- Strings are sequences of Unicode scalar values, whereas JavaScript strings are sequences of UTF-16 code units. The two agree for the database lines. They can differ for typed input outside the Basic Multilingual Plane, where `input[i]` and `length` count code units.
- The `i` flag is modelled as ASCII case folding. This is exact for the patterns used here, which are all ASCII. The `\w` class and line terminators follow ECMAScript.
- Scoring.Accuracy: computed exactly in integers, rounding half up. `Math.round` on the floating-point product can differ. For example, 23 correct out of 40 attempts gives 57.49999999999999, so JavaScript shows 57 where the exact value rounds to 58. A round of ten lines can never have 23 correct lines.
- That every line of `codeDatabase` has no white space at either end is not proved, so neither is the consequence that typing a line exactly as shown is accepted. The verifier cannot index the longer HTML string constants from the front at a reasonable cost. `FinishRound` and `PerfectRound` therefore take inputs whose trim equals the lines.
- The Rails controller, the routes, the system tests and the Jest tests.
