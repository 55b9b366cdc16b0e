/** The per-character feedback of updateDisplay: every character of the
    line to type becomes one span, marked typed, wrong or not yet typed
    according to the character the player has put at the same position. */
module Feedback {
  import opened Wrappers
  import opened Markup

  datatype Mark = Typed | Error | Pending

  /** One position of the line: its mark and the character it shows. */
  datatype Cell = Cell(mark: Mark, ch: char)

  /** The mark of position `i` of `target` when the input box holds
      `input`. */
  function MarkAt(target: string, input: string, i: nat): Mark
    requires i < |target|
  {
    if i < |input| then (if target[i] == input[i] then Typed else Error) else Pending
  }

  /** The annotation of the whole line: one cell per character. */
  function Annotate(target: string, input: string): (r: seq<Cell>)
    ensures |r| == |target|
    ensures forall i :: 0 <= i < |r| ==> r[i].ch == target[i]
  {
    seq(|target|, i requires 0 <= i < |target| => Cell(MarkAt(target, input, i), target[i]))
  }

  /** Position `i` is marked typed when the input holds the same character
      there, wrong when it holds another one, and pending when the input
      does not reach it. */
  lemma AnnotateMarks(target: string, input: string, i: nat)
    requires i < |target|
    ensures var m := Annotate(target, input)[i].mark;
      && (m == Typed <==> i < |input| && input[i] == target[i])
      && (m == Error <==> i < |input| && input[i] != target[i])
      && (m == Pending <==> i >= |input|)
  {
  }

  const TypedOpen: string := "<span class=\"typed-char\">"
  const ErrorOpen: string := "<span class=\"error-char\">"
  const PendingOpen: string := "<span>"
  const Close: string := "</span>"

  function OpenTag(m: Mark): string {
    match m
    case Typed => TypedOpen
    case Error => ErrorOpen
    case Pending => PendingOpen
  }

  /** A space is written as "&nbsp;" so that runs of spaces stay visible;
      every other character goes through escapeHtml. */
  function DisplayChar(c: char): (r: string)
    ensures |r| > 0
  {
    if c == ' ' then "&nbsp;" else EscapeHtml([c])
  }

  /** What a character is written as never holds "<" or ">". */
  lemma DisplayCharNoAngle(c: char)
    ensures NoAngle(DisplayChar(c))
  {
    if c != ' ' {
      EscapeHtmlNoAngle([c]);
    }
  }

  /** The character a reader of the page sees for `c`. */
  function ShownChar(c: char): char {
    if c == ' ' then NoBreakSpace else c
  }

  function SpanFor(cell: Cell): string {
    OpenTag(cell.mark) + DisplayChar(cell.ch) + Close
  }

  /** The markup of a sequence of cells, span after span. */
  function Render(cs: seq<Cell>): string {
    if cs == [] then "" else SpanFor(cs[0]) + Render(cs[1..])
  }

  lemma {:induction false} RenderAppend(cs: seq<Cell>, c: Cell)
    ensures Render(cs + [c]) == Render(cs) + SpanFor(c)
  {
    if cs == [] {
      assert cs + [c] == [c];
      assert Render([c][1..]) == "";
    } else {
      assert (cs + [c])[0] == cs[0] && (cs + [c])[1..] == cs[1..] + [c];
      RenderAppend(cs[1..], c);
    }
  }

  /** One more cell adds its span at the end. */
  lemma RenderStep(cells: seq<Cell>, i: nat)
    requires i < |cells|
    ensures Render(cells[..i + 1]) == Render(cells[..i]) + SpanFor(cells[i])
  {
    assert cells[..i + 1] == cells[..i] + [cells[i]];
    RenderAppend(cells[..i], cells[i]);
  }

  /** The loop of updateDisplay that builds `formattedLine`. */
  method FormatLine(target: string, input: string) returns (html: string)
    ensures html == Render(Annotate(target, input))
  {
    ghost var cells := Annotate(target, input);
    html := "";
    var i := 0;
    while i < |target|
      invariant 0 <= i <= |target|
      invariant html == Render(cells[..i])
    {
      var c := target[i];
      var displayChar := DisplayChar(c);
      var span;
      if i < |input| {
        if c == input[i] {
          span := TypedOpen + displayChar + Close;
        } else {
          span := ErrorOpen + displayChar + Close;
        }
      } else {
        span := PendingOpen + displayChar + Close;
      }
      assert cells[i] == Cell(MarkAt(target, input, i), c);
      assert span == SpanFor(cells[i]);
      RenderStep(cells, i);
      html := html + span;
      i := i + 1;
      assert html == Render(cells[..i]);
    }
    assert cells[..|target|] == cells;
  }

  /** The element updateDisplay puts into the code display. */
  function CurrentLineMarkup(formatted: string): string {
    "<div class=\"code-line current-line\">" + formatted + "</div>"
  }

  /** Every character is marked typed exactly when the line is a prefix of
      the input. */
  lemma AllTypedIff(target: string, input: string)
    ensures (forall i :: 0 <= i < |target| ==> Annotate(target, input)[i].mark == Typed)
        <==> |target| <= |input| && input[..|target|] == target
  {
    var a := Annotate(target, input);
    if |target| <= |input| && input[..|target|] == target {
      assert forall i :: 0 <= i < |target| ==> input[i] == input[..|target|][i];
    } else if |input| < |target| {
      assert a[|input|].mark != Typed;
    } else {
      var i :| 0 <= i < |target| && input[..|target|][i] != target[i];
      assert a[i].mark != Typed;
    }
  }

  /** No character is marked wrong exactly when what has been typed agrees
      with the line as far as both go. */
  lemma NoErrorIff(target: string, input: string)
    ensures (forall i :: 0 <= i < |target| ==> Annotate(target, input)[i].mark != Error)
        <==> (var n := if |input| < |target| then |input| else |target|;
              input[..n] == target[..n])
  {
    var a := Annotate(target, input);
    var n := if |input| < |target| then |input| else |target|;
    if forall i :: 0 <= i < |target| ==> a[i].mark != Error {
      assert forall i :: 0 <= i < n ==> input[..n][i] == target[..n][i];
    } else {
      var i :| 0 <= i < |target| && a[i].mark == Error;
      assert input[..n][i] != target[..n][i];
    }
  }

  // Reading the markup back.

  /** The mark an opening tag at the start of `h` announces, and its length. */
  function MarkOfOpen(h: string): Option<(Mark, nat)> {
    if StartsWith(h, TypedOpen) then Some((Typed, |TypedOpen|))
    else if StartsWith(h, ErrorOpen) then Some((Error, |ErrorOpen|))
    else if StartsWith(h, PendingOpen) then Some((Pending, |PendingOpen|))
    else None
  }

  /** The end of the run of characters other than '<' that starts at `k`. */
  function BodyEnd(h: string, k: nat): (e: nat)
    requires k <= |h|
    ensures k <= e <= |h|
    decreases |h| - k
  {
    if k < |h| && h[k] != '<' then BodyEnd(h, k + 1) else k
  }

  /** One span at the start of `h`: its cell, as shown, and its length. */
  function ParseSpan(h: string): (r: Option<(Cell, nat)>)
    ensures r.Some? ==> 0 < r.value.1 <= |h|
  {
    match MarkOfOpen(h)
    case None => None
    case Some((m, k)) =>
      if k > |h| then None
      else
        var e := BodyEnd(h, k);
        if !StartsWith(h[e..], Close) then None
        else
          var u := UnescapeHtml(h[k..e]);
          if |u| != 1 then None else Some((Cell(m, u[0]), e + |Close|))
  }

  /** The cells a sequence of spans shows. */
  function ParseLine(h: string): Option<seq<Cell>>
    decreases |h|
  {
    if h == [] then Some([])
    else
      match ParseSpan(h)
      case None => None
      case Some((c, n)) =>
        match ParseLine(h[n..])
        case None => None
        case Some(cs) => Some([c] + cs)
  }

  /** What a reader sees of each cell. */
  function Shown(cs: seq<Cell>): (r: seq<Cell>)
    ensures |r| == |cs|
    ensures forall i :: 0 <= i < |cs| ==> r[i] == Cell(cs[i].mark, ShownChar(cs[i].ch))
  {
    seq(|cs|, i requires 0 <= i < |cs| => Cell(cs[i].mark, ShownChar(cs[i].ch)))
  }

  lemma OpenTagRead(m: Mark, rest: string)
    ensures MarkOfOpen(OpenTag(m) + rest) == Some((m, |OpenTag(m)|))
  {
    var h := OpenTag(m) + rest;
    assert h[..|OpenTag(m)|] == OpenTag(m);
    match m
    case Typed =>
    case Error =>
      assert !StartsWith(h, TypedOpen) by { assert h[13] == 'e'; }
    case Pending =>
      assert !StartsWith(h, TypedOpen) && !StartsWith(h, ErrorOpen) by { assert h[5] == '>'; }
  }

  lemma {:induction false} BodyEndAt(h: string, k: nat, d: string)
    requires k + |d| < |h| && h[k..k + |d|] == d && h[k + |d|] == '<'
    requires forall i :: 0 <= i < |d| ==> d[i] != '<'
    ensures BodyEnd(h, k) == k + |d|
    decreases |d|
  {
    if d != [] {
      assert h[k] == d[0];
      assert h[k + 1..k + 1 + |d[1..]|] == d[1..];
      BodyEndAt(h, k + 1, d[1..]);
    }
  }

  lemma NbspUnescapes(s: string)
    requires s == "&nbsp;"
    ensures UnescapeHtml(s) == [NoBreakSpace]
  {
    assert StartsWith(s, "&nbsp;");
    assert !StartsWith(s, "&amp;") && !StartsWith(s, "&lt;") && !StartsWith(s, "&gt;") by {
      assert s[1] == 'n';
    }
    assert s[6..] == [];
  }

  lemma DisplayCharUnescapes(c: char)
    ensures UnescapeHtml(DisplayChar(c)) == [ShownChar(c)]
  {
    if c == ' ' {
      NbspUnescapes(DisplayChar(c));
    } else {
      EscapeRoundTrip([c]);
    }
  }

  /** An opening tag, text with no "<", and a closing tag read back as one
      span whose character is what the text decodes to. */
  lemma ParseSpanParts(m: Mark, d: string, rest: string)
    requires |d| > 0 && NoAngle(d) && |UnescapeHtml(d)| == 1
    ensures ParseSpan(OpenTag(m) + d + Close + rest) ==
            Some((Cell(m, UnescapeHtml(d)[0]), |OpenTag(m)| + |d| + |Close|))
  {
    var o := OpenTag(m);
    var h := o + d + Close + rest;
    SpanSlices(o, d, Close, rest);
    OpenTagRead(m, d + Close + rest);
    assert h[|o| + |d|] == Close[0] == '<';
    BodyEndAt(h, |o|, d);
    assert StartsWith(h[|o| + |d|..], Close);
  }

  lemma SpanSlices(o: string, d: string, c: string, rest: string)
    ensures var h := o + d + c + rest;
      && h == o + (d + c + rest)
      && h[|o|..|o| + |d|] == d
      && h[|o| + |d|..] == c + rest
      && (c + rest)[..|c|] == c
  {
    var h := o + d + c + rest;
    assert h == o + (d + c + rest);
    assert h[|o|..] == d + c + rest;
  }

  lemma ParseSpanFor(cell: Cell, rest: string)
    ensures ParseSpan(SpanFor(cell) + rest) ==
            Some((Cell(cell.mark, ShownChar(cell.ch)), |SpanFor(cell)|))
  {
    DisplayCharNoAngle(cell.ch);
    DisplayCharUnescapes(cell.ch);
    ParseSpanParts(cell.mark, DisplayChar(cell.ch), rest);
  }

  /** Reading the markup of a line back gives its marks and what each
      position shows. */
  lemma {:induction false} ParseRender(cs: seq<Cell>)
    ensures ParseLine(Render(cs)) == Some(Shown(cs))
  {
    if cs != [] {
      var sp, rest := SpanFor(cs[0]), Render(cs[1..]);
      var c := Cell(cs[0].mark, ShownChar(cs[0].ch));
      assert Render(cs) == sp + rest;
      ParseSpanFor(cs[0], rest);
      assert (sp + rest)[|sp|..] == rest;
      ParseRender(cs[1..]);
      ParseLineStep(sp + rest, c, |sp|, Shown(cs[1..]));
      assert Shown(cs) == [c] + Shown(cs[1..]);
    }
  }

  /** A span followed by readable spans reads as one more cell. */
  lemma ParseLineStep(h: string, c: Cell, n: nat, tail: seq<Cell>)
    requires ParseSpan(h) == Some((c, n))
    requires ParseLine(h[n..]) == Some(tail)
    ensures ParseLine(h) == Some([c] + tail)
  {
  }

  /** The code display of a line can be read back: one span per character
      of the line, each with the mark the input gives it and showing the
      character (a space as a no-break space). */
  lemma FormatLineReadsBack(target: string, input: string)
    ensures ParseLine(Render(Annotate(target, input))) == Some(Shown(Annotate(target, input)))
    ensures forall i :: 0 <= i < |target| ==>
      Shown(Annotate(target, input))[i] == Cell(MarkAt(target, input, i), ShownChar(target[i]))
  {
    ParseRender(Annotate(target, input));
  }
}
