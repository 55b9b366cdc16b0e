/** The preview sanitisers. Each one is a chain of global, case-insensitive
    regular-expression replacements by the empty string, so each link is
    modelled as RemoveAll: scan left to right, drop every match found, keep
    every other character. The three regular expressions involved are
    modelled by hand-written matchers that give the length of the match
    starting at a position, as the ECMAScript backtracking matcher finds it. */
module Sanitize {
  import opened Wrappers

  /** With the `i` flag and no `u` flag, ECMAScript canonicalises both sides
      by upper-casing and never maps a non-ASCII character onto an ASCII
      one; for patterns made of ASCII characters only, that is ASCII case
      folding. */
  function Upper(c: char): char {
    if 'a' <= c <= 'z' then (c as int - 32) as char else c
  }

  predicate StartsWithIgnoringCase(t: string, p: string) {
    |p| <= |t| && forall i :: 0 <= i < |p| ==> Upper(t[i]) == Upper(p[i])
  }

  /** The class `\w`: ASCII letters, digits and underscore. */
  predicate IsWordChar(c: char) {
    ('a' <= c <= 'z') || ('A' <= c <= 'Z') || ('0' <= c <= '9') || c == '_'
  }

  /** The characters `.` does not match without the `s` flag. */
  predicate IsLineTerminator(c: char) {
    c == '\n' || c == '\r' || c == '\U{2028}' || c == '\U{2029}'
  }

  /** The first index at or after `from` that holds `c`. */
  function IndexOf(t: string, from: nat, c: char): (r: Option<nat>)
    requires from <= |t|
    ensures r.Some? ==> from <= r.value < |t| && t[r.value] == c
    ensures r.Some? ==> forall j :: from <= j < r.value ==> t[j] != c
    ensures r.None? ==> forall j :: from <= j < |t| ==> t[j] != c
    decreases |t| - from
  {
    if from == |t| then None
    else if t[from] == c then Some(from)
    else IndexOf(t, from + 1, c)
  }

  /** The lazy `.*?<\/script>` tail: the end of the first "</script>"
      (in any case) at or after `j` that no line terminator precedes. */
  function ScriptCloseFrom(t: string, j: nat): (r: Option<nat>)
    requires j <= |t|
    ensures r.Some? ==> j + 9 <= r.value <= |t|
    decreases |t| - j
  {
    if StartsWithIgnoringCase(t[j..], "</script>") then Some(j + 9)
    else if j == |t| || IsLineTerminator(t[j]) then None
    else ScriptCloseFrom(t, j + 1)
  }

  /** What the lazy tail stops at: a "</script>" (in any case), the first
      one at or after `j`, with no line terminator before it. */
  lemma {:induction false} ScriptCloseFromFirst(t: string, j: nat)
    requires j <= |t|
    ensures var r := ScriptCloseFrom(t, j);
      r.Some? ==>
        StartsWithIgnoringCase(t[r.value - 9..], "</script>") &&
        forall m :: j <= m < r.value - 9 ==>
          !IsLineTerminator(t[m]) && !StartsWithIgnoringCase(t[m..], "</script>")
    decreases |t| - j
  {
    if !StartsWithIgnoringCase(t[j..], "</script>") && j < |t| && !IsLineTerminator(t[j]) {
      ScriptCloseFromFirst(t, j + 1);
    }
  }

  /** The end of the maximal run of word characters that starts at `i`. */
  function WordRun(t: string, i: nat): (r: nat)
    requires i <= |t|
    ensures i <= r <= |t|
    ensures forall m :: i <= m < r ==> IsWordChar(t[m])
    ensures r == |t| || !IsWordChar(t[r])
    decreases |t| - i
  {
    if i < |t| && IsWordChar(t[i]) then WordRun(t, i + 1) else i
  }

  /** The three patterns the sanitisers remove:
      - Literal(text): the regular expression that is `text` with its
        special characters escaped (`/expression\(/gi`, `/javascript:/gi`);
      - ScriptElement: `/<script[^>]*>.*?<\/script>/gi`;
      - EventHandlerAttribute: `/on\w+="[^"]*"/gi`. */
  datatype Pattern = Literal(text: string) | ScriptElement | EventHandlerAttribute

  predicate WellFormed(p: Pattern) {
    p.Literal? ==> |p.text| > 0
  }

  function LiteralMatch(text: string, t: string): (r: Option<nat>)
    requires |text| > 0
    ensures r.Some? ==> 0 < r.value <= |t|
  {
    if StartsWithIgnoringCase(t, text) then Some(|text|) else None
  }

  /** `<script[^>]*>` can only stop at the first ">" after "<script"; the
      lazy `.*?` then stops at the first "</script>" it can reach. */
  function ScriptMatch(t: string): (r: Option<nat>)
    ensures r.Some? ==> 0 < r.value <= |t|
  {
    if !StartsWithIgnoringCase(t, "<script") then None
    else
      match IndexOf(t, 7, '>')
      case None => None
      case Some(k) => ScriptCloseFrom(t, k + 1)
  }

  /** `\w+=` can only stop after the whole run of word characters, and
      `[^"]*"` only at the first quote after `="`. */
  function EventHandlerMatch(t: string): (r: Option<nat>)
    ensures r.Some? ==> 0 < r.value <= |t|
  {
    if !StartsWithIgnoringCase(t, "on") then None
    else
      var w := WordRun(t, 2);
      if w == 2 || w + 1 >= |t| || t[w] != '=' || t[w + 1] != '"' then None
      else
        match IndexOf(t, w + 2, '"')
        case None => None
        case Some(q) => Some(q + 1)
  }

  /** The length of the match of `p` that starts at the start of `t`, if
      there is one. */
  function MatchAt(p: Pattern, t: string): (r: Option<nat>)
    requires WellFormed(p)
    ensures r.Some? ==> 0 < r.value <= |t|
  {
    match p
    case Literal(text) => LiteralMatch(text, t)
    case ScriptElement => ScriptMatch(t)
    case EventHandlerAttribute => EventHandlerMatch(t)
  }

  /** A matcher gives the length of the match at the start of a string. */
  type Matcher = string -> Option<nat>

  /** Every match a matcher reports is non-empty and inside the string, so
      a global replacement always makes progress. */
  ghost predicate Advances(m: Matcher) {
    forall t :: m(t).Some? ==> 0 < m(t).value <= |t|
  }

  function Matches(p: Pattern): (m: Matcher)
    requires WellFormed(p)
    ensures Advances(m)
  {
    t => MatchAt(p, t)
  }

  /** `s.replace(re, '')` for a global regular expression `re`: at each
      position, a match is dropped and the scan resumes after it; otherwise
      the character is kept and the scan moves on by one. */
  function RemoveAll(m: Matcher, s: string): (r: string)
    requires Advances(m)
    decreases |s|
  {
    if s == [] then []
    else
      match m(s)
      case Some(k) => RemoveAll(m, s[k..])
      case None => [s[0]] + RemoveAll(m, s[1..])
  }

  /** No match starts in `s` before position `i`. */
  predicate NoMatchBefore(m: Matcher, s: string, i: nat)
    requires i <= |s|
  {
    i == 0 || (m(s).None? && NoMatchBefore(m, s[1..], i - 1))
  }

  /** No match starts anywhere in `s`. */
  predicate NoMatch(m: Matcher, s: string) {
    NoMatchBefore(m, s, |s|)
  }

  /** NoMatchBefore says of every position before `i` that no match starts
      there. */
  lemma {:induction false} NoMatchBeforeIff(m: Matcher, s: string, i: nat)
    requires i <= |s|
    ensures NoMatchBefore(m, s, i) <==> forall j :: 0 <= j < i ==> m(s[j..]).None?
    decreases i
  {
    if i > 0 {
      NoMatchBeforeIff(m, s[1..], i - 1);
      assert s[0..] == s;
      assert forall j :: 1 <= j < i ==> s[1..][j - 1..] == s[j..];
    }
  }

  /** `r` is `s` with some characters deleted. */
  predicate IsSubsequence(r: string, s: string) {
    if r == [] then true
    else if s == [] then false
    else if r[0] == s[0] then IsSubsequence(r[1..], s[1..])
    else IsSubsequence(r, s[1..])
  }

  lemma {:induction false} SubsequenceOfTail(r: string, s: string)
    requires s != [] && IsSubsequence(r, s[1..])
    ensures IsSubsequence(r, s)
    decreases |s|
  {
    if r != [] && r[0] == s[0] {
      assert |s| > 1 && IsSubsequence(r[1..], s[2..]) by {
        SubsequenceDropFirst(r, s[1..]);
      }
      assert s[1..][1..] == s[2..];
      SubsequenceOfTail(r[1..], s[1..]);
    }
  }

  lemma {:induction false} SubsequenceDropFirst(r: string, s: string)
    requires r != [] && IsSubsequence(r, s)
    ensures s != [] && IsSubsequence(r[1..], s[1..])
    decreases |s|
  {
    if r[0] != s[0] {
      SubsequenceDropFirst(r, s[1..]);
      SubsequenceOfTail(r[1..], s[1..]);
    }
  }

  lemma {:induction false} DropPrefixSubsequence(r: string, s: string, k: nat)
    requires k <= |s| && IsSubsequence(r, s[k..])
    ensures IsSubsequence(r, s)
    decreases k
  {
    if k > 0 {
      assert s[1..][k - 1..] == s[k..];
      DropPrefixSubsequence(r, s[1..], k - 1);
      SubsequenceOfTail(r, s);
    }
  }

  lemma {:induction false} SubsequenceTransitive(r: string, m: string, s: string)
    requires IsSubsequence(r, m) && IsSubsequence(m, s)
    ensures IsSubsequence(r, s)
    decreases |s|
  {
    if r != [] {
      SubsequenceDropFirst(m, s);
      if m[0] == s[0] {
        if r[0] == m[0] {
          SubsequenceTransitive(r[1..], m[1..], s[1..]);
        } else {
          SubsequenceTransitive(r, m[1..], s[1..]);
          SubsequenceOfTail(r, s);
        }
      } else {
        SubsequenceTransitive(r, m, s[1..]);
        SubsequenceOfTail(r, s);
      }
    }
  }

  /** Removal only deletes characters: what is left is a subsequence of
      the input, in the input's order. */
  lemma {:induction false} RemoveAllIsSubsequence(m: Matcher, s: string)
    requires Advances(m)
    ensures IsSubsequence(RemoveAll(m, s), s)
    decreases |s|
  {
    if s != [] {
      match m(s)
      case Some(k) =>
        RemoveAllIsSubsequence(m, s[k..]);
        DropPrefixSubsequence(RemoveAll(m, s[k..]), s, k);
      case None =>
        RemoveAllIsSubsequence(m, s[1..]);
    }
  }

  lemma {:induction false} ConsPrefix(s: string, i: nat, whole: string, tail: string, rest: string)
    requires 0 < i <= |s|
    requires whole == [s[0]] + tail && tail == s[1..][..i - 1] + rest
    ensures whole == s[..i] + rest
  {
    assert [s[0]] + s[1..][..i - 1] == s[..i];
  }

  /** Left-to-right, non-overlapping removal: when the left-most match in
      `s` starts at `i` and is `k` long, everything before it is kept, the
      match is dropped, and the scan resumes right after it. */
  lemma {:induction false} RemoveAllFirstMatch(m: Matcher, s: string, i: nat, k: nat)
    requires Advances(m)
    requires i < |s| && m(s[i..]) == Some(k)
    requires NoMatchBefore(m, s, i)
    ensures i + k <= |s| && RemoveAll(m, s) == s[..i] + RemoveAll(m, s[i + k..])
    decreases i
  {
    if i == 0 {
      assert s[0..] == s && s[..0] == [];
    } else {
      var t := s[1..];
      assert m(s).None? && NoMatchBefore(m, t, i - 1);
      assert RemoveAll(m, s) == [s[0]] + RemoveAll(m, t);
      assert t[i - 1..] == s[i..];
      RemoveAllFirstMatch(m, t, i - 1, k);
      var rest := RemoveAll(m, s[i + k..]);
      assert t[i - 1 + k..] == s[i + k..];
      assert RemoveAll(m, t) == t[..i - 1] + rest;
      ConsPrefix(s, i, RemoveAll(m, s), RemoveAll(m, t), rest);
    }
  }

  /** Input with no match is left as it is. */
  lemma {:induction false} RemoveAllNoMatch(m: Matcher, s: string)
    requires Advances(m) && NoMatch(m, s)
    ensures RemoveAll(m, s) == s
    decreases |s|
  {
    if s != [] {
      RemoveAllNoMatch(m, s[1..]);
    }
  }

  /** Removal never lengthens, and it shortens whenever some match exists. */
  lemma {:induction false} RemoveAllShortens(m: Matcher, s: string)
    requires Advances(m)
    ensures |RemoveAll(m, s)| <= |s|
    ensures !NoMatch(m, s) ==> |RemoveAll(m, s)| < |s|
    decreases |s|
  {
    if s != [] {
      match m(s)
      case Some(k) =>
        RemoveAllShortens(m, s[k..]);
      case None =>
        RemoveAllShortens(m, s[1..]);
    }
  }

  /** A removal changes its input exactly when the input holds a match. */
  lemma RemoveAllUnchangedIff(m: Matcher, s: string)
    requires Advances(m)
    ensures RemoveAll(m, s) == s <==> NoMatch(m, s)
  {
    RemoveAllShortens(m, s);
    if NoMatch(m, s) {
      RemoveAllNoMatch(m, s);
    }
  }

  const ScriptTag: Pattern := ScriptElement
  const EventHandler: Pattern := EventHandlerAttribute
  const JavascriptScheme: Pattern := Literal("javascript:")
  const CssExpression: Pattern := Literal("expression(")

  /** The markup shown in the HTML preview: script elements, then
      double-quoted event-handler attributes, then "javascript:" removed. */
  function SafeHtml(input: string): (r: string)
    ensures IsSubsequence(r, input)
  {
    var a := RemoveAll(Matches(ScriptTag), input);
    var b := RemoveAll(Matches(EventHandler), a);
    var c := RemoveAll(Matches(JavascriptScheme), b);
    RemoveAllIsSubsequence(Matches(ScriptTag), input);
    RemoveAllIsSubsequence(Matches(EventHandler), a);
    RemoveAllIsSubsequence(Matches(JavascriptScheme), b);
    SubsequenceTransitive(c, b, a);
    SubsequenceTransitive(c, a, input);
    c
  }

  /** The style text given to the CSS preview box: "expression(", then
      "javascript:" removed. */
  function SafeCss(input: string): (r: string)
    ensures IsSubsequence(r, input)
  {
    var a := RemoveAll(Matches(CssExpression), input);
    var b := RemoveAll(Matches(JavascriptScheme), a);
    RemoveAllIsSubsequence(Matches(CssExpression), input);
    RemoveAllIsSubsequence(Matches(JavascriptScheme), a);
    SubsequenceTransitive(b, a, input);
    b
  }

  /** The HTML preview shows the input unchanged exactly when none of the
      three patterns occurs in it. */
  lemma SafeHtmlUnchangedIff(input: string)
    ensures SafeHtml(input) == input <==>
      NoMatch(Matches(ScriptTag), input) && NoMatch(Matches(EventHandler), input) &&
      NoMatch(Matches(JavascriptScheme), input)
  {
    var a := RemoveAll(Matches(ScriptTag), input);
    var b := RemoveAll(Matches(EventHandler), a);
    RemoveAllUnchangedIff(Matches(ScriptTag), input);
    RemoveAllShortens(Matches(ScriptTag), input);
    RemoveAllUnchangedIff(Matches(EventHandler), a);
    RemoveAllShortens(Matches(EventHandler), a);
    RemoveAllUnchangedIff(Matches(JavascriptScheme), b);
    RemoveAllShortens(Matches(JavascriptScheme), b);
  }

  /** The CSS preview applies the style text unchanged exactly when neither
      pattern occurs in it. */
  lemma SafeCssUnchangedIff(input: string)
    ensures SafeCss(input) == input <==>
      NoMatch(Matches(CssExpression), input) && NoMatch(Matches(JavascriptScheme), input)
  {
    var a := RemoveAll(Matches(CssExpression), input);
    RemoveAllUnchangedIff(Matches(CssExpression), input);
    RemoveAllShortens(Matches(CssExpression), input);
    RemoveAllUnchangedIff(Matches(JavascriptScheme), a);
    RemoveAllShortens(Matches(JavascriptScheme), a);
  }

  /** The fixed text every match of `p` starts with. */
  function Lead(p: Pattern): string {
    match p
    case Literal(text) => text
    case ScriptElement => "<script"
    case EventHandlerAttribute => "on"
  }

  /** Where the first two characters of the lead text of `p` do not occur
      together, no match of `p` starts. */
  predicate NoLeadPairFrom(p: Pattern, s: string, lo: nat, hi: nat)
    requires |Lead(p)| >= 2
  {
    forall j :: lo <= j < hi && j + 1 < |s| ==>
      Upper(s[j]) != Upper(Lead(p)[0]) || Upper(s[j + 1]) != Upper(Lead(p)[1])
  }

  lemma NoLeadPairNoMatch(p: Pattern, t: string)
    requires WellFormed(p) && |Lead(p)| >= 2 && NoLeadPairFrom(p, t, 0, 1)
    ensures MatchAt(p, t).None?
  {
    if |t| >= |Lead(p)| {
      assert !StartsWithIgnoringCase(t, Lead(p)) by {
        if Upper(t[0]) == Upper(Lead(p)[0]) {
          assert Upper(t[1]) != Upper(Lead(p)[1]);
        }
      }
    }
  }

  /** A string in which the first two characters of the lead text of `p`
      do not occur together before `i` holds no match of `p` starting
      before `i`. */
  lemma NoLeadNoMatchBefore(p: Pattern, s: string, i: nat)
    requires WellFormed(p) && |Lead(p)| >= 2 && i <= |s| && NoLeadPairFrom(p, s, 0, i)
    ensures NoMatchBefore(Matches(p), s, i)
  {
    forall j | 0 <= j < i ensures MatchAt(p, s[j..]).None? {
      assert NoLeadPairFrom(p, s[j..], 0, 1) by {
        if 1 < |s[j..]| { assert s[j..][0] == s[j] && s[j..][1] == s[j + 1]; }
      }
      NoLeadPairNoMatch(p, s[j..]);
    }
    NoMatchBeforeIff(Matches(p), s, i);
  }

  lemma NoLeadPairShift(p: Pattern, s: string, lo: nat, hi: nat)
    requires |Lead(p)| >= 2 && s != [] && NoLeadPairFrom(p, s, lo + 1, hi + 1)
    ensures NoLeadPairFrom(p, s[1..], lo, hi)
  {
    forall j | lo <= j < hi && j + 1 < |s| - 1
      ensures Upper(s[1..][j]) != Upper(Lead(p)[0]) || Upper(s[1..][j + 1]) != Upper(Lead(p)[1])
    {
      assert s[1..][j] == s[j + 1] && s[1..][j + 1] == s[j + 2];
    }
  }

  /** What `/<script[^>]*>.*?<\/script>/gi` matches: an opening tag whose
      attributes hold no ">", then content with no "<" and no line
      terminator, then "</script>". */
  lemma ScriptElementMatch(attrs: string, body: string, rest: string)
    requires forall j :: 0 <= j < |attrs| ==> attrs[j] != '>'
    requires forall j :: 0 <= j < |body| ==> body[j] != '<' && !IsLineTerminator(body[j])
    ensures var e := "<script" + attrs + ">" + body + "</script>";
            ScriptMatch(e + rest) == Some(|e|)
  {
    var e := "<script" + attrs + ">" + body + "</script>";
    var k := 7 + |attrs|;
    ScriptOpenFacts(e + rest, attrs, body, rest);
    ScriptSlice(e + rest, attrs, body, rest);
    ScriptCloseAfter(e + rest, k + 1, body, rest);
    ScriptMatchParts(e + rest, k, |e|);
  }

  /** The opening tag of a script element ends at its first ">". */
  lemma ScriptOpenFacts(t: string, attrs: string, body: string, rest: string)
    requires forall j :: 0 <= j < |attrs| ==> attrs[j] != '>'
    requires t == "<script" + attrs + ">" + body + "</script>" + rest
    ensures StartsWithIgnoringCase(t, "<script") && IndexOf(t, 7, '>') == Some(7 + |attrs|)
  {
    var after := body + "</script>" + rest;
    SplitElement("<script", attrs, ">", body, "</script>", rest);
    StartsWithOwnText("<script", attrs + ">" + after);
    IndexOfAfter(t, 7, attrs, '>', after);
  }

  /** Where the content of a script element starts, and how long the
      element is. */
  lemma ScriptSlice(t: string, attrs: string, body: string, rest: string)
    requires t == "<script" + attrs + ">" + body + "</script>" + rest
    ensures 8 + |attrs| <= |t| && t[8 + |attrs|..] == body + "</script>" + rest
    ensures |t| - |rest| == 8 + |attrs| + |body| + 9
  {
    SplitElement("<script", attrs, ">", body, "</script>", rest);
  }

  /** How a string made of six parts splits. */
  lemma SplitElement(p: string, a: string, g: string, b: string, c: string, r: string)
    ensures p + a + g + b + c + r == p + (a + g + (b + c + r))
    ensures (p + a + g + b + c + r)[|p|..] == a + g + (b + c + r)
    ensures (p + a + g + b + c + r)[|p| + |a| + |g|..] == b + c + r
  {
    var t := p + a + g + b + c + r;
    assert t == p + (a + g + (b + c + r));
  }

  lemma ScriptMatchParts(t: string, k: nat, n: nat)
    requires StartsWithIgnoringCase(t, "<script") && IndexOf(t, 7, '>') == Some(k)
    requires ScriptCloseFrom(t, k + 1) == Some(n)
    ensures ScriptMatch(t) == Some(n)
  {
    assert ScriptMatch(t) == ScriptCloseFrom(t, k + 1);
  }

  /** What `/on\w+="[^"]*"/gi` matches: "on", a non-empty name of word
      characters, `="`, a value without a double quote, and `"`. */
  lemma EventHandlerAttributeMatch(name: string, value: string, rest: string)
    requires |name| > 0 && forall j :: 0 <= j < |name| ==> IsWordChar(name[j])
    requires forall j :: 0 <= j < |value| ==> value[j] != '"'
    ensures var e := "on" + name + "=\"" + value + "\"";
            EventHandlerMatch(e + rest) == Some(|e|)
  {
    var e := "on" + name + "=\"" + value + "\"";
    var w := 2 + |name|;
    EventSlice(e + rest, name, value, rest);
    StartsWithOwnText("on", name + ("=\"" + (value + "\"" + rest)));
    WordRunOver(e + rest, 2, name, "=\"" + (value + "\"" + rest));
    IndexOfAfter(e + rest, w + 2, value, '"', rest);
    EventHandlerParts(e + rest, w, w + 2 + |value|);
  }

  /** Where the name, the `="` and the value of an event-handler attribute
      sit. */
  lemma EventSlice(t: string, name: string, value: string, rest: string)
    requires t == "on" + name + "=\"" + value + "\"" + rest
    ensures t == "on" + (name + ("=\"" + (value + "\"" + rest)))
    ensures |t| == 5 + |name| + |value| + |rest|
    ensures t[2..] == name + ("=\"" + (value + "\"" + rest))
    ensures t[2 + |name|] == '=' && t[3 + |name|] == '"'
    ensures t[4 + |name|..] == value + "\"" + rest
  {
    SplitElement("on", name, "=\"", value, "\"", rest);
    assert t[2..][|name|] == '=' && t[2..][|name| + 1] == '"';
  }

  /** WordRun stops right after a run of word characters followed by a
      character that is not one. */
  lemma {:induction false} WordRunOver(t: string, i: nat, w: string, after: string)
    requires i <= |t| && t[i..] == w + after
    requires forall j :: 0 <= j < |w| ==> IsWordChar(w[j])
    requires after == [] || !IsWordChar(after[0])
    ensures WordRun(t, i) == i + |w|
    decreases |w|
  {
    if w == [] {
      assert t[i..] == after;
      if i < |t| { assert t[i] == t[i..][0]; }
    } else {
      assert t[i] == t[i..][0] == w[0];
      assert t[i + 1..] == t[i..][1..] == w[1..] + after;
      WordRunOver(t, i + 1, w[1..], after);
    }
  }

  lemma EventHandlerParts(t: string, w: nat, q: nat)
    requires StartsWithIgnoringCase(t, "on") && WordRun(t, 2) == w
    requires 2 < w && w + 1 < |t| && t[w] == '=' && t[w + 1] == '"'
    requires IndexOf(t, w + 2, '"') == Some(q)
    ensures EventHandlerMatch(t) == Some(q + 1)
  {
  }

  lemma StartsWithOwnText(p: string, x: string)
    ensures StartsWithIgnoringCase(p + x, p)
  {
    assert forall i :: 0 <= i < |p| ==> (p + x)[i] == p[i];
  }

  /** IndexOf finds `c` right after a stretch that does not hold it. */
  lemma {:induction false} IndexOfAfter(t: string, from: nat, w: string, c: char, after: string)
    requires from <= |t| && t[from..] == w + [c] + after
    requires forall j :: 0 <= j < |w| ==> w[j] != c
    ensures IndexOf(t, from, c) == Some(from + |w|)
    decreases |w|
  {
    assert t[from] == t[from..][0];
    if w != [] {
      assert t[from + 1..] == t[from..][1..] == w[1..] + [c] + after;
      IndexOfAfter(t, from + 1, w[1..], c, after);
    }
  }

  /** The lazy tail of the script pattern stops at the first "</script>"
      after a stretch with no "<" and no line terminator. */
  lemma {:induction false} ScriptCloseAfter(t: string, j: nat, body: string, rest: string)
    requires j <= |t| && t[j..] == body + "</script>" + rest
    requires forall m :: 0 <= m < |body| ==> body[m] != '<' && !IsLineTerminator(body[m])
    ensures ScriptCloseFrom(t, j) == Some(j + |body| + 9)
    decreases |body|
  {
    if body == [] {
      assert t[j..] == "</script>" + rest;
      StartsWithOwnText("</script>", rest);
    } else {
      assert t[j..][0] == body[0] == t[j];
      assert ScriptCloseFrom(t, j) == ScriptCloseFrom(t, j + 1) by {
        assert Upper(t[j..][0]) != Upper("</script>"[0]);
      }
      assert t[j + 1..] == t[j..][1..] == body[1..] + "</script>" + rest;
      ScriptCloseAfter(t, j + 1, body[1..], rest);
    }
  }

  /** Text in which the first two characters of a pattern's lead text
      never occur together passes that removal unchanged. */
  lemma KeepsPlain(p: Pattern, s: string)
    requires WellFormed(p) && |Lead(p)| >= 2 && NoLeadPairFrom(p, s, 0, |s|)
    ensures RemoveAll(Matches(p), s) == s
  {
    NoLeadNoMatchBefore(p, s, |s|);
    RemoveAllNoMatch(Matches(p), s);
  }

  /** "<b>" holds the start of none of the three HTML patterns. */
  lemma BoldTagHasNoPatternStart(b: string)
    requires b == "<b>"
    ensures NoLeadPairFrom(ScriptTag, b, 0, |b|)
    ensures NoLeadPairFrom(EventHandler, b, 0, |b|)
    ensures NoLeadPairFrom(JavascriptScheme, b, 0, |b|)
  {
  }

  /** The example is one script element followed by "<b>". */
  lemma ScriptBlockSplit(s: string)
    requires s == "<script>alert(1)</script><b>"
    ensures s == "<script" + "" + ">" + "alert(1)" + "</script>" + "<b>"
    ensures s[25..] == "<b>"
  {
  }

  lemma ScriptBlockDropped(s: string)
    requires s == "<script>alert(1)</script><b>"
    ensures RemoveAll(Matches(ScriptTag), s) == RemoveAll(Matches(ScriptTag), "<b>")
  {
    ScriptBlockSplit(s);
    ScriptElementMatch("", "alert(1)", "<b>");
  }

  /** A script element and its content disappear from the preview while
      the markup after it stays. */
  lemma ScriptRemovedExample(s: string)
    requires s == "<script>alert(1)</script><b>"
    ensures SafeHtml(s) == "<b>"
  {
    ScriptBlockDropped(s);
    BoldTagHasNoPatternStart("<b>");
    KeepsPlain(ScriptTag, "<b>");
    KeepsPlain(EventHandler, "<b>");
    KeepsPlain(JavascriptScheme, "<b>");
  }

  lemma MultiLineOpening(s: string)
    requires s == "<script>\nf()</script>"
    ensures MatchAt(ScriptTag, s).None?
  {
    assert IndexOf(s, 7, '>') == Some(7);
    assert !StartsWithIgnoringCase(s[8..], "</script>") by { assert s[8..][0] == '\n'; }
    assert ScriptCloseFrom(s, 8) == None;
  }

  /** After its first character the example holds no further "<s". */
  lemma MultiLineNoSecondScriptStart(s: string)
    requires s == "<script>\nf()</script>"
    ensures NoLeadPairFrom(ScriptTag, s, 1, |s|)
  {
  }

  /** A string with no match at its start and no lead pair after it passes
      a removal unchanged. */
  lemma KeepsPlainAfterFirst(p: Pattern, s: string)
    requires WellFormed(p) && |Lead(p)| >= 2 && s != []
    requires MatchAt(p, s).None? && NoLeadPairFrom(p, s, 1, |s|)
    ensures RemoveAll(Matches(p), s) == s
  {
    var m := Matches(p);
    assert m(s).None? by { assert m(s) == MatchAt(p, s); }
    assert RemoveAll(m, s) == [s[0]] + RemoveAll(m, s[1..]);
    NoLeadPairShift(p, s, 0, |s| - 1);
    KeepsPlain(p, s[1..]);
    assert [s[0]] + s[1..] == s;
  }

  /** Without the `s` flag `.` stops at a line break, so a script element
      written over two lines is not removed. */
  lemma MultiLineScriptKept(s: string)
    requires s == "<script>\nf()</script>"
    ensures RemoveAll(Matches(ScriptTag), s) == s
  {
    MultiLineOpening(s);
    MultiLineNoSecondScriptStart(s);
    KeepsPlainAfterFirst(ScriptTag, s);
  }

  /** One match, nothing like it elsewhere: the removal cuts exactly that
      match out. */
  lemma RemoveSingle(p: Pattern, a: string, e: string, b: string)
    requires WellFormed(p) && |Lead(p)| >= 2
    requires NoMatchBefore(Matches(p), a + e + b, |a|)
    requires MatchAt(p, e + b) == Some(|e|)
    requires NoLeadPairFrom(p, b, 0, |b|)
    ensures RemoveAll(Matches(p), a + e + b) == a + b
  {
    var s := a + e + b;
    SplitAroundMatch(a, e, b);
    assert Matches(p)(s[|a|..]) == Some(|e|);
    RemoveAllFirstMatch(Matches(p), s, |a|, |e|);
    KeepsPlain(p, b);
  }

  /** How a string made of a prefix, a match and a suffix splits. */
  lemma SplitAroundMatch(a: string, e: string, b: string)
    ensures |a + e + b| == |a| + |e| + |b|
    ensures (a + e + b)[|a|..] == e + b && (a + e + b)[..|a|] == a
    ensures (a + e + b)[|a| + |e|..] == b
  {
    var s := a + e + b;
    assert s == a + (e + b);
    assert s[|a|..] == e + b;
    assert (e + b)[|e|..] == b;
  }

  /** A literal pattern matches a string that starts with its text. */
  lemma LiteralAtStart(text: string, rest: string)
    requires |text| > 0
    ensures MatchAt(Literal(text), text + rest) == Some(|text|)
  {
    assert forall i :: 0 <= i < |text| ==> (text + rest)[i] == text[i];
  }

  /** The same, with the absence of earlier matches read off the lead
      text. */
  lemma RemovePlainSingle(p: Pattern, s: string, a: string, e: string, b: string)
    requires WellFormed(p) && |Lead(p)| >= 2 && s == a + e + b
    requires NoLeadPairFrom(p, s, 0, |a|)
    requires MatchAt(p, e + b) == Some(|e|)
    requires NoLeadPairFrom(p, b, 0, |b|)
    ensures RemoveAll(Matches(p), s) == a + b
  {
    NoLeadNoMatchBefore(p, s, |a|);
    RemoveSingle(p, a, e, b);
  }

  /** The declaration is the text before, the "expression(" and the text
      after, and removing the middle leaves "color:x)". */
  lemma CssDeclarationSplit(s: string, a: string, e: string, b: string)
    requires s == "color:expression(x)"
    requires a == "color:" && e == "expression(" && b == "x)"
    ensures s == a + e + b && a + b == "color:x)"
  {
  }

  /** "expression(" occurs in the declaration only at position 6. */
  lemma CssExpressionOccursOnce(s: string, b: string)
    requires s == "color:expression(x)" && b == "x)"
    ensures NoLeadPairFrom(CssExpression, s, 0, 6)
    ensures NoLeadPairFrom(CssExpression, b, 0, |b|)
  {
  }

  /** The styled text holds no "javascript:". */
  lemma CssResultHasNoScheme(r: string)
    requires r == "color:x)"
    ensures NoLeadPairFrom(JavascriptScheme, r, 0, |r|)
  {
  }

  /** The "expression(" in a style declaration is cut out before the
      preview box is styled. */
  lemma CssExpressionExample(s: string)
    requires s == "color:expression(x)"
    ensures SafeCss(s) == "color:x)"
  {
    var a, e, b := "color:", "expression(", "x)";
    CssDeclarationSplit(s, a, e, b);
    CssExpressionOccursOnce(s, b);
    CssResultHasNoScheme(a + b);
    LiteralAtStart(e, b);
    RemovePlainSingle(CssExpression, s, a, e, b);
    KeepsPlain(JavascriptScheme, a + b);
  }

  /** The nested example is "expression(" inside "expres" ... "sion(". */
  lemma NestedSplit(s: string, a: string, e: string, b: string)
    requires s == "expresexpression(sion("
    requires a == "expres" && e == "expression(" && b == "sion("
    ensures s == a + e + b && a + b == e
  {
  }

  /** The outer "expres" at the start is not a match. */
  lemma NestedStart(s: string)
    requires s == "expresexpression(sion("
    ensures MatchAt(CssExpression, s).None?
  {
    assert !StartsWithIgnoringCase(s, "expression(") by { assert s[6] == 'e'; }
  }

  /** "ex", the start of "expression(", occurs in the nested example only
      at positions 0 and 6, and not in its tail "sion(". */
  lemma NestedOnlyMiddleOccurrence(s: string, b: string)
    requires s == "expresexpression(sion(" && b == "sion("
    ensures NoLeadPairFrom(CssExpression, s, 1, 6)
    ensures NoLeadPairFrom(CssExpression, b, 0, |b|)
  {
  }

  /** One pass does not remove every occurrence: cutting "expression(" out
      of the middle of "expresexpression(sion(" leaves "expression(" again,
      which is why the sanitisers promise only that the matches they find,
      left to right, are removed. */
  lemma RemovalCanLeaveMatch(s: string)
    requires s == "expresexpression(sion("
    ensures RemoveAll(Matches(CssExpression), s) == "expression("
    ensures MatchAt(CssExpression, "expression(").Some?
  {
    var a, e, b := "expres", "expression(", "sion(";
    NestedSplit(s, a, e, b);
    NestedStart(s);
    NestedOnlyMiddleOccurrence(s, b);
    NoLeadPairShift(CssExpression, s, 0, 5);
    NoLeadNoMatchBefore(CssExpression, s[1..], 5);
    LiteralAtStart(e, b);
    RemoveSingle(CssExpression, a, e, b);
    LiteralAtStart(e, []);
    assert e + [] == e;
  }

  /** The example is the text before the attribute, the attribute and the
      text after it. */
  lemma OnclickSplit(s: string, a: string, e: string, b: string)
    requires s == "<p onclick=\"x\">ok</p>"
    requires a == "<p " && e == "onclick=\"x\"" && b == ">ok</p>"
    ensures s == a + e + b && a + b == "<p >ok</p>"
    ensures e == "on" + "click" + "=\"" + "x" + "\""
  {
  }

  /** The attribute is the only place in the example where "on" occurs. */
  lemma OnclickSingleOn(s: string, b: string)
    requires s == "<p onclick=\"x\">ok</p>" && b == ">ok</p>"
    ensures NoLeadPairFrom(EventHandler, s, 0, 3)
    ensures NoLeadPairFrom(EventHandler, b, 0, |b|)
  {
  }

  /** The example holds no "<s", and its result no "ja". */
  lemma OnclickNoScriptOrScheme(s: string, r: string)
    requires s == "<p onclick=\"x\">ok</p>" && r == "<p >ok</p>"
    ensures NoLeadPairFrom(ScriptTag, s, 0, |s|)
    ensures NoLeadPairFrom(JavascriptScheme, r, 0, |r|)
  {
  }

  /** The example's handler name is made of word characters and its
      value holds no double quote. */
  lemma OnclickNameValue(name: string, value: string)
    requires name == "click" && value == "x"
    ensures |name| > 0 && forall j :: 0 <= j < |name| ==> IsWordChar(name[j])
    ensures forall j :: 0 <= j < |value| ==> value[j] != '"'
  {
  }

  /** An inline event handler is cut out of the preview, the element and
      its text stay. */
  lemma EventHandlerRemovedExample(s: string)
    requires s == "<p onclick=\"x\">ok</p>"
    ensures SafeHtml(s) == "<p >ok</p>"
  {
    var a, e, b := "<p ", "onclick=\"x\"", ">ok</p>";
    OnclickSplit(s, a, e, b);
    OnclickSingleOn(s, b);
    OnclickNoScriptOrScheme(s, a + b);
    KeepsPlain(ScriptTag, s);
    OnclickNameValue("click", "x");
    EventHandlerAttributeMatch("click", "x", b);
    RemovePlainSingle(EventHandler, s, a, e, b);
    KeepsPlain(JavascriptScheme, a + b);
  }
}
