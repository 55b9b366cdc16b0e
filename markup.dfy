/** escapeHtml: the game sets a detached element's textContent and reads
    back its innerHTML. The HTML Standard's fragment serialisation escapes
    a text node by replacing "&" with "&amp;", U+00A0 with "&nbsp;", "<"
    with "&lt;" and ">" with "&gt;"; quotes are left as they are. */
module Markup {

  const NoBreakSpace: char := '\U{A0}'

  predicate NeedsEscape(c: char) {
    c == '&' || c == '<' || c == '>' || c == NoBreakSpace
  }

  /** The serialised form of one character of a text node. */
  function EscapeChar(c: char): (r: string)
    ensures |r| > 0 && r[0] == '&' <==> NeedsEscape(c)
    ensures !NeedsEscape(c) ==> r == [c]
  {
    if c == '&' then "&amp;"
    else if c == '<' then "&lt;"
    else if c == '>' then "&gt;"
    else if c == NoBreakSpace then "&nbsp;"
    else [c]
  }

  /** escapeHtml(text). */
  function EscapeHtml(s: string): (r: string)
    ensures |r| >= |s|
  {
    if s == [] then "" else EscapeChar(s[0]) + EscapeHtml(s[1..])
  }

  predicate NoAngle(s: string) {
    forall i :: 0 <= i < |s| ==> s[i] != '<' && s[i] != '>'
  }

  /** Escaped text holds no "<" and no ">", so it cannot open or close a
      tag. */
  lemma {:induction false} EscapeHtmlNoAngle(s: string)
    ensures NoAngle(EscapeHtml(s))
  {
    if s != [] {
      var e, r := EscapeChar(s[0]), EscapeHtml(s[1..]);
      EscapeHtmlNoAngle(s[1..]);
      assert NoAngle(e);
      assert forall i :: |e| <= i < |e + r| ==> (e + r)[i] == r[i - |e|];
    }
  }

  /** Decoding of the four character references EscapeHtml writes: the
      partner that shows escaping loses nothing. */
  function UnescapeHtml(s: string): (r: string)
    decreases |s|
  {
    if s == [] then ""
    else
      var (c, n) := DecodeOne(s);
      [c] + UnescapeHtml(s[n..])
  }

  predicate StartsWith(s: string, p: string) {
    |p| <= |s| && s[..|p|] == p
  }

  /** The first character `s` denotes and how many characters it takes. */
  function DecodeOne(s: string): (r: (char, nat))
    requires s != []
    ensures 1 <= r.1 <= |s|
  {
    if s[0] != '&' then (s[0], 1)
    else if StartsWith(s, "&amp;") then ('&', 5)
    else if StartsWith(s, "&lt;") then ('<', 4)
    else if StartsWith(s, "&gt;") then ('>', 4)
    else if StartsWith(s, "&nbsp;") then (NoBreakSpace, 6)
    else ('&', 1)
  }

  lemma DecodeEscaped(c: char, rest: string)
    ensures DecodeOne(EscapeChar(c) + rest) == (c, |EscapeChar(c)|)
  {
    var e := EscapeChar(c) + rest;
    if c == '&' {
      assert e[..5] == "&amp;";
    } else if c == '<' {
      assert e[..4] == "&lt;";
      assert !StartsWith(e, "&amp;") by { assert e[1] == 'l'; }
    } else if c == '>' {
      assert e[..4] == "&gt;";
      assert !StartsWith(e, "&amp;") && !StartsWith(e, "&lt;") by { assert e[1] == 'g'; }
    } else if c == NoBreakSpace {
      assert e[..6] == "&nbsp;";
      assert !StartsWith(e, "&amp;") && !StartsWith(e, "&lt;") && !StartsWith(e, "&gt;") by {
        assert e[1] == 'n';
      }
    } else {
      assert e[0] == c;
    }
  }

  lemma UnescapeChar(c: char, rest: string)
    ensures UnescapeHtml(EscapeChar(c) + rest) == [c] + UnescapeHtml(rest)
  {
    var e := EscapeChar(c) + rest;
    DecodeEscaped(c, rest);
    assert e[|EscapeChar(c)|..] == rest;
  }

  /** Escaping round-trips: decoding the serialised text gives the text. */
  lemma {:induction false} EscapeRoundTrip(s: string)
    ensures UnescapeHtml(EscapeHtml(s)) == s
  {
    if s != [] {
      UnescapeChar(s[0], EscapeHtml(s[1..]));
      EscapeRoundTrip(s[1..]);
    }
  }

  /** Text without the four special characters is serialised as it is. */
  lemma {:induction false} EscapeIdentity(s: string)
    ensures EscapeHtml(s) == s <==> forall i :: 0 <= i < |s| ==> !NeedsEscape(s[i])
  {
    if s != [] {
      EscapeIdentity(s[1..]);
      if NeedsEscape(s[0]) {
        assert |EscapeChar(s[0])| > 1;
      } else {
        assert forall i :: 1 <= i < |s| ==> s[1..][i - 1] == s[i];
      }
    }
  }
}
