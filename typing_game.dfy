/** SimpleTypeCodeGame: one practice round of retyping ten lines of HTML or
    CSS. The page elements the game reads and writes are a record, Dom; the
    session is a class, Game, whose methods change its fields step by step
    as the game's methods do. Each method is specified by a function on the
    value View() of the whole state, and the properties of a round are
    lemmas about those functions. */
module TypingGame {
  import opened JsString
  import Sanitize
  import Feedback
  import opened Scoring

  /** `totalLines`. */
  const Total: nat := 10

  /** The values of the language selector. */
  datatype Language = Html | Css

  const HtmlLines: seq<string> := [
    "<h1>Welcome to our website</h1>",
    "<p>This is a simple paragraph.</p>",
    "<div class='container'>",
    "<img src='photo.jpg' alt='A beautiful photo'>",
    "<a href='https://example.com'>Visit our site</a>",
    "<ul><li>First item</li><li>Second item</li></ul>",
    "<input type='text' name='username' placeholder='Enter name'>",
    "<button type='submit'>Send Message</button>",
    "<form method='post' action='/submit'>",
    "<meta name='viewport' content='width=device-width'>"
  ]

  const CssLines: seq<string> := [
    "color: #333333;",
    "background-color: #ffffff;",
    "font-size: 18px;",
    "margin: 20px auto;",
    "padding: 15px 30px;",
    "border: 2px solid #ddd;",
    "border-radius: 8px;",
    "display: flex;",
    "justify-content: center;",
    "box-shadow: 0 2px 4px rgba(0,0,0,0.1);"
  ]

  /** `codeDatabase[language]`: each language has exactly as many lines as
      a round asks for. */
  function CodeDatabase(lang: Language): (r: seq<string>)
    ensures |r| == Total
  {
    match lang
    case Html => HtmlLines
    case Css => CssLines
  }

  /** What the preview pane holds: the placeholder message of the HTML
      mode, markup, or the CSS preview box with a style text. */
  datatype Preview = HtmlPrompt | HtmlContent(html: string) | CssBox(style: string)

  /** The code display before a round starts. */
  const StartPrompt: string := "<div class=\"code-line\">スペースキーでスタート</div>"

  /** The page elements the game touches: the input area's value and
      `disabled` flag, the language selector, whether the results block is
      shown, the progress counter, the code display, the preview pane and
      the result message. */
  datatype Dom = Dom(
    input: string,
    language: Language,
    inputDisabled: bool,
    resultsVisible: bool,
    progress: string,
    codeDisplay: string,
    preview: Preview,
    resultMessage: string)

  /** The whole state of a game: its fields and the page. */
  datatype Session = Session(
    code: seq<string>,
    index: nat,
    correct: nat,
    errors: nat,
    playing: bool,
    dom: Dom)

  // Previews.

  /** updateHtmlPreview: the sanitised markup. */
  function HtmlPreview(input: string): (p: Preview)
    ensures p.HtmlContent? && Sanitize.IsSubsequence(p.html, input)
  {
    HtmlContent(Sanitize.SafeHtml(input))
  }

  /** updateCssPreview: a box whose style is the sanitised input, or no
      style when the input is blank. */
  function CssPreview(input: string): (p: Preview)
    ensures p.CssBox? && Sanitize.IsSubsequence(p.style, input)
    ensures Trim(input) == "" ==> p.style == ""
  {
    if Trim(input) == "" then CssBox("") else CssBox(Sanitize.SafeCss(input))
  }

  /** updatePreview(input). */
  function PreviewFor(lang: Language, input: string): (p: Preview)
    ensures lang == Css ==> p.CssBox?
    ensures lang == Html ==> (p == HtmlPrompt <==> Trim(input) == "")
    ensures lang == Html ==> !p.CssBox?
    ensures p.HtmlContent? ==> Sanitize.IsSubsequence(p.html, input)
    ensures p.CssBox? ==> Sanitize.IsSubsequence(p.style, input)
  {
    match lang
    case Css => CssPreview(input)
    case Html => if Trim(input) == "" then HtmlPrompt else HtmlPreview(input)
  }

  /** The preview nextLine puts back after an accepted line. */
  function BlankPreview(lang: Language): Preview {
    if lang == Css then CssBox("") else HtmlPrompt
  }

  lemma BlankCssPreview()
    ensures CssPreview("") == CssBox("")
  {
  }

  /** The preview after a line is what the preview of an empty input is. */
  lemma BlankPreviewIsEmptyInput(lang: Language)
    ensures BlankPreview(lang) == PreviewFor(lang, "")
  {
    BlankCssPreview();
  }

  /** A preview of plain markup shows it as typed. */
  lemma HtmlPreviewOfCleanInput(input: string)
    requires Trim(input) != ""
    requires Sanitize.NoMatch(Sanitize.Matches(Sanitize.ScriptTag), input)
    requires Sanitize.NoMatch(Sanitize.Matches(Sanitize.EventHandler), input)
    requires Sanitize.NoMatch(Sanitize.Matches(Sanitize.JavascriptScheme), input)
    ensures PreviewFor(Html, input) == HtmlContent(input)
  {
    Sanitize.SafeHtmlUnchangedIff(input);
  }

  // The state changes, as functions of the state.

  /** updateStats. */
  function WithStats(s: Session): Session {
    s.(dom := s.dom.(progress := ProgressText(s.correct, Total)))
  }

  /** resetStats. */
  function ResetStatsOf(s: Session): (t: Session)
    ensures t.index == 0 && t.correct == 0 && t.errors == 0
    ensures t.code == s.code && t.playing == s.playing
    ensures t.dom == s.dom.(progress := ProgressText(0, Total))
  {
    WithStats(s.(index := 0, correct := 0, errors := 0))
  }

  /** `shuffled.slice(0, n)`. */
  function SelectLines(shuffled: seq<string>, n: nat): (r: seq<string>)
    ensures |r| == if n < |shuffled| then n else |shuffled|
    ensures r == shuffled[..|r|]
  {
    if n < |shuffled| then shuffled[..n] else shuffled
  }

  /** loadCode, with the shuffled copy of the language's lines given. */
  function LoadCodeOf(s: Session, shuffled: seq<string>): Session {
    s.(code := SelectLines(shuffled, Total))
  }

  /** The code display for a line and what has been typed of it. */
  function LineMarkup(line: string, input: string): string {
    Feedback.CurrentLineMarkup(Feedback.Render(Feedback.Annotate(line, input)))
  }

  /** updateDisplay, and whether it throws: once the index reaches
      totalLines it does nothing; when the index is past the end of the
      selected lines, reading the length of the missing line is a
      TypeError. */
  function DisplayOf(s: Session): (Session, bool) {
    if s.index >= Total then (s, false)
    else if s.index >= |s.code| then (s, true)
    else
      (s.(dom := s.dom.(codeDisplay := LineMarkup(s.code[s.index], s.dom.input),
                        preview := PreviewFor(s.dom.language, s.dom.input))), false)
  }

  /** startGame. */
  function StartOf(s: Session, shuffled: seq<string>): (Session, bool) {
    var t := LoadCodeOf(ResetStatsOf(s), shuffled).(playing := true);
    var (u, threw) := DisplayOf(t.(dom := t.dom.(inputDisabled := false, resultsVisible := false)));
    if threw then (u, true) else (WithStats(u), false)
  }

  /** resetGame. */
  function ResetGameOf(s: Session): Session {
    var t := ResetStatsOf(s.(playing := false));
    WithStats(t.(dom := t.dom.(inputDisabled := true, input := "", resultsVisible := false,
                               codeDisplay := StartPrompt)))
  }

  /** showResults. */
  function ShowResultsOf(s: Session): Session {
    s.(dom := s.dom.(resultMessage := Message(TierOf(Accuracy(s.correct, s.errors))),
                     resultsVisible := true))
  }

  /** endGame. */
  function EndOf(s: Session): Session {
    ShowResultsOf(s.(playing := false, dom := s.dom.(inputDisabled := true)))
  }

  /** nextLine. */
  function NextLineOf(s: Session): (Session, bool) {
    var t := Advanced(s);
    if t.index >= Total then (EndOf(t), false) else DisplayOf(t)
  }

  /** The first part of nextLine: the index moves on, the input is cleared
      and the preview blanked. */
  function Advanced(s: Session): Session {
    s.(index := s.index + 1, dom := s.dom.(input := "", preview := BlankPreview(s.dom.language)))
  }

  /** The trimmed input is the current line. A missing line is `undefined`
      in the game, which no string equals. */
  predicate Accepts(s: Session, input: string) {
    s.index < |s.code| && Trim(input) == s.code[s.index]
  }

  /** checkLine, with `input` the value of the input area. */
  function CheckLineOf(s: Session, input: string): (Session, bool) {
    if Accepts(s, input) then AcceptOf(s, input)
    else DisplayOf(WithStats(Entered(s, input).(errors := s.errors + 1)))
  }

  /** The input area holds `input`. */
  function Entered(s: Session, input: string): Session {
    s.(dom := s.dom.(input := input))
  }

  /** The part of checkLine that follows a match. */
  function AcceptOf(s: Session, input: string): (Session, bool) {
    var (s2, threw) := NextLineOf(Entered(s, input).(correct := s.correct + 1));
    if threw then (s2, true) else DisplayOf(WithStats(s2))
  }

  /** handleKeyDown: only Enter, and only during a round, submits. */
  function KeyDownOf(s: Session, key: string, value: string): (Session, bool) {
    if !s.playing then (s, false)
    else if key == "Enter" then CheckLineOf(s, value)
    else (s, false)
  }

  /** The page-wide Space key handler: starts a round unless one is on. */
  function SpaceOf(s: Session, shuffled: seq<string>): (Session, bool) {
    if s.playing then (s, false) else StartOf(s, shuffled)
  }

  /** The input area's `input` listener: the browser has put `value` into
      the input area, then updateDisplay runs. */
  function InputOf(s: Session, value: string): (Session, bool) {
    DisplayOf(Entered(s, value))
  }

  /** The state the constructor leaves. */
  function Initial(page: Dom): Session {
    Session([], 0, 0, 0, false, page)
  }

  // The invariant of a game, and the properties of its steps.

  /** The index never passes totalLines and counts the correct lines; the
      lines are none yet or a full round of them; during a round its lines
      are loaded, one is still to type, input is enabled and the results
      are hidden. */
  predicate Valid(s: Session) {
    s.index <= Total && s.correct == s.index &&
    (|s.code| == 0 || |s.code| == Total) &&
    (s.playing ==> |s.code| == Total && s.index < Total &&
                   !s.dom.inputDisabled && !s.dom.resultsVisible)
  }

  /** `shuffled` is an arrangement of the lines of `lang`. */
  predicate IsShuffleOf(shuffled: seq<string>, lang: Language) {
    multiset(shuffled) == multiset(CodeDatabase(lang))
  }

  lemma PrefixSubMultiset(s: seq<string>, k: nat)
    requires k <= |s|
    ensures multiset(s[..k]) <= multiset(s)
  {
    assert s == s[..k] + s[k..];
  }

  /** loadCode keeps min(totalLines, |lines|) lines, a prefix of the
      arrangement and so no line more often than the language has it; an
      empty source gives no lines. */
  lemma LineSelection(shuffled: seq<string>, lines: seq<string>)
    requires multiset(shuffled) == multiset(lines)
    ensures var r := SelectLines(shuffled, Total);
      |r| == (if Total < |lines| then Total else |lines|) &&
      r == shuffled[..|r|] &&
      multiset(r) <= multiset(lines) &&
      (lines == [] ==> r == [])
  {
    assert |shuffled| == |multiset(shuffled)| == |multiset(lines)| == |lines|;
    PrefixSubMultiset(shuffled, |SelectLines(shuffled, Total)|);
  }

  /** For the game's own database a round uses every line of the language
      exactly once. */
  lemma RoundUsesEveryLine(shuffled: seq<string>, lang: Language)
    requires IsShuffleOf(shuffled, lang)
    ensures SelectLines(shuffled, Total) == shuffled
    ensures multiset(SelectLines(shuffled, Total)) == multiset(CodeDatabase(lang))
  {
    LineSelection(shuffled, CodeDatabase(lang));
  }

  /** startGame leaves the counters at zero, a round in play with input
      enabled and results hidden, the progress counter at 0/10 and the
      first line on the display; it does not throw, and it re-establishes
      the invariant from any state. */
  lemma Start(s: Session, shuffled: seq<string>)
    requires IsShuffleOf(shuffled, s.dom.language)
    ensures var (t, threw) := StartOf(s, shuffled);
      !threw && t.index == 0 && t.correct == 0 && t.errors == 0 &&
      t.playing && !t.dom.inputDisabled && !t.dom.resultsVisible &&
      multiset(t.code) == multiset(CodeDatabase(s.dom.language)) &&
      t.dom.progress == ProgressText(0, Total) &&
      t.dom.codeDisplay == LineMarkup(t.code[0], s.dom.input) &&
      t.dom.input == s.dom.input && t.code == shuffled && Valid(t)
  {
    RoundUsesEveryLine(shuffled, s.dom.language);
  }

  /** resetStats puts the three counters to zero, and twice is once. */
  lemma ResetStatsIdempotent(s: Session)
    ensures ResetStatsOf(ResetStatsOf(s)) == ResetStatsOf(s)
  {
  }

  /** resetGame ends any round: counters at zero, not playing, input
      disabled and cleared, results hidden, the start prompt shown. */
  lemma ResetGame(s: Session)
    ensures var t := ResetGameOf(s);
      t.index == 0 && t.correct == 0 && t.errors == 0 && !t.playing &&
      t.dom.inputDisabled && t.dom.input == "" && !t.dom.resultsVisible &&
      t.dom.codeDisplay == StartPrompt && t.dom.progress == ProgressText(0, Total) &&
      t.code == s.code && t.dom.language == s.dom.language &&
      (Valid(s) ==> Valid(t))
  {
  }

  lemma ResetGameIdempotent(s: Session)
    ensures ResetGameOf(ResetGameOf(s)) == ResetGameOf(s)
  {
  }

  /** Once the index has reached totalLines, updateDisplay changes nothing. */
  lemma DisplayAfterEnd(s: Session)
    requires s.index >= Total
    ensures DisplayOf(s) == (s, false)
  {
  }

  /** The steps of checkLine after a match, when the next line, if any,
      is loaded. */
  lemma AcceptedSteps(s: Session, input: string)
    requires Accepts(s, input) && (s.index + 1 < Total ==> s.index + 1 < |s.code|)
    ensures var n := Advanced(Entered(s, input).(correct := s.correct + 1));
      CheckLineOf(s, input) ==
        if n.index >= Total then (WithStats(EndOf(n)), false)
        else DisplayOf(WithStats(DisplayOf(n).0))
  {
    var e := Entered(s, input).(correct := s.correct + 1);
    var n := Advanced(e);
    assert CheckLineOf(s, input) == AcceptOf(s, input);
    if n.index >= Total {
      assert NextLineOf(e) == (EndOf(n), false);
      assert DisplayOf(WithStats(EndOf(n))) == (WithStats(EndOf(n)), false);
    } else {
      assert NextLineOf(e) == DisplayOf(n);
      assert !DisplayOf(n).1;
    }
  }

  /** A correct submission: one more correct line, the index moves on by
      one, the mistakes stay, the input is cleared and the progress counter
      shows the new count. */
  lemma CorrectSubmission(s: Session, input: string)
    requires Valid(s) && s.playing && Accepts(s, input)
    ensures var (t, threw) := CheckLineOf(s, input);
      !threw && t.correct == s.correct + 1 && t.index == s.index + 1 &&
      t.errors == s.errors && t.dom.input == "" && t.code == s.code &&
      t.dom.progress == ProgressText(t.correct, Total) && Valid(t)
  {
    AcceptedSteps(s, input);
  }

  /** A wrong submission: one more mistake, nothing else of the session
      changes, the input stays for correcting and the display marks it. */
  lemma WrongSubmission(s: Session, input: string)
    requires Valid(s) && s.playing && !Accepts(s, input)
    ensures var (t, threw) := CheckLineOf(s, input);
      !threw && t.errors == s.errors + 1 && t.index == s.index &&
      t.correct == s.correct && t.playing && t.code == s.code &&
      t.dom.input == input &&
      t.dom.codeDisplay == LineMarkup(s.code[s.index], input) &&
      t.dom.preview == PreviewFor(s.dom.language, input) &&
      t.dom.progress == ProgressText(s.correct, Total) && Valid(t)
  {
  }

  /** Accepting the last line ends the round: not playing, input disabled,
      the results shown with the message for ten correct lines and the
      mistakes made. */
  lemma RoundEnd(s: Session, input: string)
    requires Valid(s) && s.playing && Accepts(s, input) && s.index + 1 == Total
    ensures var (t, threw) := CheckLineOf(s, input);
      !threw && !t.playing && t.dom.inputDisabled && t.dom.resultsVisible &&
      t.index == Total && t.correct == Total &&
      t.dom.resultMessage == Message(TierOf(Accuracy(Total, s.errors))) && Valid(t)
  {
    AcceptedSteps(s, input);
  }

  /** Accepting any other line keeps the round going and shows the next
      line with nothing typed yet and the blank preview. */
  lemma RoundContinues(s: Session, input: string)
    requires Valid(s) && s.playing && Accepts(s, input) && s.index + 1 < Total
    ensures var (t, threw) := CheckLineOf(s, input);
      !threw && t.playing && !t.dom.inputDisabled &&
      t.dom.codeDisplay == LineMarkup(s.code[s.index + 1], "") &&
      t.dom.preview == BlankPreview(s.dom.language)
  {
    BlankPreviewIsEmptyInput(s.dom.language);
    var s2 := s.(dom := s.dom.(input := input), correct := s.correct + 1);
    var n := s2.(index := s2.index + 1,
                 dom := s2.dom.(input := "", preview := BlankPreview(s.dom.language)));
    assert NextLineOf(s2) == DisplayOf(n);
    var d := n.(dom := n.dom.(codeDisplay := LineMarkup(s.code[s.index + 1], ""),
                              preview := BlankPreview(s.dom.language)));
    assert DisplayOf(n) == (d, false);
    assert CheckLineOf(s, input) == DisplayOf(WithStats(d));
  }

  /** Every key press keeps the invariant and, during a round, none
      throws. */
  lemma KeyDownValid(s: Session, key: string, value: string)
    requires Valid(s)
    ensures var (t, threw) := KeyDownOf(s, key, value);
      Valid(t) && (s.playing ==> !threw) && (!s.playing ==> t == s)
  {
    if s.playing && key == "Enter" {
      if Accepts(s, value) {
        CorrectSubmission(s, value);
      } else {
        WrongSubmission(s, value);
      }
    }
  }

  /** The Space key starts a round when none is on and is ignored during
      one. */
  lemma SpaceValid(s: Session, shuffled: seq<string>)
    requires Valid(s) && IsShuffleOf(shuffled, s.dom.language)
    ensures var (t, threw) := SpaceOf(s, shuffled);
      !threw && Valid(t) && t.playing && (s.playing ==> t == s)
  {
    if !s.playing {
      Start(s, shuffled);
    }
  }

  /** updateDisplay keeps the invariant and, during a round, does not
      throw. */
  lemma DisplayValid(s: Session)
    requires Valid(s)
    ensures Valid(DisplayOf(s).0) && (s.playing ==> !DisplayOf(s).1)
  {
  }

  /** Typing keeps the invariant and the counters; during a round it
      shows the current line annotated against what is typed and the
      preview of it, and does not throw. */
  lemma InputValid(s: Session, value: string)
    requires Valid(s)
    ensures var (t, threw) := InputOf(s, value);
      Valid(t) && t.index == s.index && t.correct == s.correct && t.errors == s.errors &&
      t.code == s.code && t.playing == s.playing && t.dom.input == value &&
      (s.playing ==>
         !threw && t.dom.codeDisplay == LineMarkup(s.code[s.index], value) &&
         t.dom.preview == PreviewFor(s.dom.language, value))
  {
    DisplayValid(Entered(s, value));
  }

  lemma InitialValid(page: Dom)
    ensures Valid(Initial(page)) && !Initial(page).playing
  {
  }

  /** The state after a sequence of Enter presses with the given input
      values. */
  function Submit(s: Session, inputs: seq<string>): Session
    decreases |inputs|
  {
    if inputs == [] then s else Submit(KeyDownOf(s, "Enter", inputs[0]).0, inputs[1..])
  }

  /** Typing the remaining lines of a round, each with any padding of
      white space, without a mistake finishes it with ten correct lines and
      the mistakes made before, and shows the message for them. */
  lemma {:induction false} FinishRound(s: Session, inputs: seq<string>)
    requires Valid(s) && s.playing
    requires |inputs| == Total - s.index
    requires forall j :: 0 <= j < |inputs| ==> Trim(inputs[j]) == s.code[s.index + j]
    ensures var t := Submit(s, inputs);
      !t.playing && t.correct == Total && t.errors == s.errors && t.dom.resultsVisible &&
      t.dom.resultMessage == Message(TierOf(Accuracy(Total, s.errors)))
    decreases |inputs|
  {
    var (t, threw) := CheckLineOf(s, inputs[0]);
    assert Accepts(s, inputs[0]);
    assert Submit(s, inputs) == Submit(t, inputs[1..]) by {
      assert KeyDownOf(s, "Enter", inputs[0]) == CheckLineOf(s, inputs[0]);
    }
    if s.index + 1 == Total {
      RoundEnd(s, inputs[0]);
      assert inputs[1..] == [];
    } else {
      CorrectSubmission(s, inputs[0]);
      RoundContinues(s, inputs[0]);
      assert forall j :: 0 <= j < |inputs[1..]| ==> Trim(inputs[1..][j]) == t.code[t.index + j] by {
        forall j | 0 <= j < |inputs[1..]| ensures Trim(inputs[1..][j]) == t.code[t.index + j] {
          assert inputs[1..][j] == inputs[j + 1];
        }
      }
      FinishRound(t, inputs[1..]);
    }
  }

  /** A round typed without any mistake from its start ends with the
      perfect message. */
  lemma PerfectRound(s: Session, shuffled: seq<string>, inputs: seq<string>)
    requires IsShuffleOf(shuffled, s.dom.language)
    requires |inputs| == Total
    requires forall j :: 0 <= j < Total ==> Trim(inputs[j]) == shuffled[j]
    ensures var t := Submit(StartOf(s, shuffled).0, inputs);
      !t.playing && t.correct == Total && t.errors == 0 &&
      t.dom.resultMessage == Message(Perfect)
  {
    var u := StartOf(s, shuffled).0;
    assert Valid(u) && u.playing && u.index == 0 && u.errors == 0 && u.code == shuffled by {
      Start(s, shuffled);
    }
    FinishFromStart(u, inputs);
  }

  /** The remainder of PerfectRound, from a freshly started round. */
  lemma FinishFromStart(u: Session, inputs: seq<string>)
    requires Valid(u) && u.playing && u.index == 0 && u.errors == 0
    requires |inputs| == Total
    requires forall j :: 0 <= j < Total ==> Trim(inputs[j]) == u.code[j]
    ensures var t := Submit(u, inputs);
      !t.playing && t.correct == Total && t.errors == 0 &&
      t.dom.resultMessage == Message(Perfect)
  {
    assert forall j :: 0 <= j < |inputs| ==> Trim(inputs[j]) == u.code[u.index + j];
    FinishRound(u, inputs);
    RoundTier(0);
  }

  // The game object.

  class Game {
    var currentCode: seq<string>
    var currentLineIndex: nat
    const totalLines: nat := Total
    var correctLines: nat
    var errors: nat
    var isPlaying: bool
    var dom: Dom

    function View(): Session
      reads this
    {
      Session(currentCode, currentLineIndex, correctLines, errors, isPlaying, dom)
    }

    constructor(page: Dom)
      ensures View() == Initial(page)
    {
      currentCode := [];
      currentLineIndex := 0;
      correctLines := 0;
      errors := 0;
      isPlaying := false;
      dom := page;
    }

    method StartGame(shuffled: seq<string>) returns (threw: bool)
      modifies this
      ensures (View(), threw) == StartOf(old(View()), shuffled)
    {
      ResetStats();
      LoadCode(shuffled);
      isPlaying := true;
      dom := dom.(inputDisabled := false, resultsVisible := false);
      threw := UpdateDisplay();
      if threw {
        return;
      }
      UpdateStats();
    }

    method ResetGame()
      modifies this
      ensures View() == ResetGameOf(old(View()))
    {
      isPlaying := false;
      ResetStats();
      dom := dom.(inputDisabled := true, input := "", resultsVisible := false,
                  codeDisplay := StartPrompt);
      UpdateStats();
    }

    method ResetStats()
      modifies this
      ensures View() == ResetStatsOf(old(View()))
    {
      currentLineIndex := 0;
      correctLines := 0;
      errors := 0;
      UpdateStats();
    }

    /** `shuffled` is the sorted-at-random copy of the language's lines. */
    method LoadCode(shuffled: seq<string>)
      modifies this
      ensures View() == LoadCodeOf(old(View()), shuffled)
    {
      currentCode := [];
      currentCode := if totalLines < |shuffled| then shuffled[..totalLines] else shuffled;
    }

    method HandleKeyDown(key: string, value: string) returns (threw: bool)
      modifies this
      ensures (View(), threw) == KeyDownOf(old(View()), key, value)
    {
      threw := false;
      if !isPlaying {
        return;
      }
      if key == "Enter" {
        threw := CheckLine(value);
      }
    }

    method HandleSpace(shuffled: seq<string>) returns (threw: bool)
      modifies this
      ensures (View(), threw) == SpaceOf(old(View()), shuffled)
    {
      threw := false;
      if !isPlaying {
        threw := StartGame(shuffled);
      }
    }

    /** The `input` listener; `value` is what the input area now holds. */
    method HandleInput(value: string) returns (threw: bool)
      modifies this
      ensures (View(), threw) == InputOf(old(View()), value)
    {
      dom := dom.(input := value);
      threw := UpdateDisplay();
    }

    method CheckLine(value: string) returns (threw: bool)
      modifies this
      ensures (View(), threw) == CheckLineOf(old(View()), value)
    {
      ghost var s0 := View();
      dom := dom.(input := value);
      var input := Trim(dom.input);
      if currentLineIndex < |currentCode| && input == currentCode[currentLineIndex] {
        correctLines := correctLines + 1;
        assert View() == Entered(s0, value).(correct := s0.correct + 1);
        threw := NextLine();
        if threw {
          assert CheckLineOf(s0, value) == AcceptOf(s0, value) == (View(), true);
          return;
        }
        assert CheckLineOf(s0, value) == AcceptOf(s0, value) == DisplayOf(WithStats(View()));
      } else {
        errors := errors + 1;
        assert View() == Entered(s0, value).(errors := s0.errors + 1);
        assert CheckLineOf(s0, value) == DisplayOf(WithStats(View()));
      }
      UpdateStats();
      threw := UpdateDisplay();
    }

    method NextLine() returns (threw: bool)
      modifies this
      ensures (View(), threw) == NextLineOf(old(View()))
    {
      ghost var s0 := View();
      currentLineIndex := currentLineIndex + 1;
      dom := dom.(input := "");
      if dom.language == Css {
        UpdateCssPreview("");
        BlankCssPreview();
      } else {
        dom := dom.(preview := HtmlPrompt);
      }
      assert View() == Advanced(s0);
      if currentLineIndex >= totalLines {
        EndGame();
        threw := false;
        assert NextLineOf(s0) == (EndOf(Advanced(s0)), false);
      } else {
        threw := UpdateDisplay();
        assert NextLineOf(s0) == DisplayOf(Advanced(s0));
      }
    }

    method UpdateDisplay() returns (threw: bool)
      modifies this
      ensures (View(), threw) == DisplayOf(old(View()))
    {
      if currentLineIndex >= totalLines {
        return false;
      }
      if currentLineIndex >= |currentCode| {
        return true;
      }
      var currentLine := currentCode[currentLineIndex];
      var input := dom.input;
      var formattedLine := Feedback.FormatLine(currentLine, input);
      dom := dom.(codeDisplay := Feedback.CurrentLineMarkup(formattedLine));
      UpdatePreview(input);
      threw := false;
    }

    method UpdatePreview(input: string)
      modifies this
      ensures View() == old(View()).(dom := old(dom).(preview := PreviewFor(old(dom).language, input)))
    {
      if dom.language == Css {
        UpdateCssPreview(input);
      } else if dom.language == Html {
        if Trim(input) == "" {
          dom := dom.(preview := HtmlPrompt);
          return;
        }
        UpdateHtmlPreview(input);
      }
    }

    method UpdateHtmlPreview(input: string)
      modifies this
      ensures View() == old(View()).(dom := old(dom).(preview := HtmlPreview(input)))
    {
      dom := dom.(preview := HtmlPreview(input));
    }

    method UpdateCssPreview(input: string)
      modifies this
      ensures View() == old(View()).(dom := old(dom).(preview := CssPreview(input)))
    {
      var style := "";
      if Trim(input) != "" {
        style := Sanitize.SafeCss(input);
      }
      dom := dom.(preview := CssBox(style));
    }

    method UpdateStats()
      modifies this
      ensures View() == WithStats(old(View()))
    {
      dom := dom.(progress := ProgressText(correctLines, totalLines));
    }

    method EndGame()
      modifies this
      ensures View() == EndOf(old(View()))
    {
      isPlaying := false;
      dom := dom.(inputDisabled := true);
      ShowResults();
    }

    method ShowResults()
      modifies this
      ensures View() == ShowResultsOf(old(View()))
    {
      var accuracy := Accuracy(correctLines, errors);
      var message := Message(TierOf(accuracy));
      dom := dom.(resultMessage := message, resultsVisible := true);
    }
  }
}
