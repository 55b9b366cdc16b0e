/** The pieces of the JavaScript string runtime the game relies on:
    String.prototype.trim and the decimal rendering of a non-negative
    integer inside a template literal. */
module JsString {

  /** The characters String.prototype.trim strips: the WhiteSpace and
      LineTerminator productions of ECMAScript (TAB, VT, FF, SPACE, NBSP,
      ZWNBSP, the Zs category, LF, CR, LS, PS). */
  predicate IsWhiteSpace(c: char) {
    c == '\U{9}' || c == '\U{B}' || c == '\U{C}' || c == ' ' ||
    c == '\U{A0}' || c == '\U{FEFF}' || c == '\U{1680}' ||
    ('\U{2000}' <= c <= '\U{200A}') || c == '\U{202F}' || c == '\U{205F}' || c == '\U{3000}' ||
    c == '\n' || c == '\r' || c == '\U{2028}' || c == '\U{2029}'
  }

  predicate AllWhiteSpace(s: string) {
    forall i :: 0 <= i < |s| ==> IsWhiteSpace(s[i])
  }

  /** Drops the leading white space. */
  function TrimStart(s: string): (r: string)
    ensures |r| <= |s|
    ensures r == [] || !IsWhiteSpace(r[0])
  {
    if |s| > 0 && IsWhiteSpace(s[0]) then TrimStart(s[1..]) else s
  }

  /** What TrimStart keeps is the suffix of `s` that starts at the first
      character that is not white space. */
  lemma {:induction false} TrimStartIsSuffix(s: string)
    ensures var r := TrimStart(s); r == s[|s| - |r|..] && AllWhiteSpace(s[..|s| - |r|])
  {
    if |s| > 0 && IsWhiteSpace(s[0]) {
      var r := TrimStart(s[1..]);
      TrimStartIsSuffix(s[1..]);
      assert s[..|s| - |r|] == [s[0]] + s[1..][..|s| - 1 - |r|];
    }
  }

  /** Drops the trailing white space. */
  function TrimEnd(s: string): (r: string)
    ensures |r| <= |s|
    ensures r == [] || !IsWhiteSpace(r[|r| - 1])
  {
    if |s| > 0 && IsWhiteSpace(s[|s| - 1]) then TrimEnd(s[..|s| - 1]) else s
  }

  /** What TrimEnd keeps is the prefix of `s` that ends at the last
      character that is not white space. */
  lemma {:induction false} TrimEndIsPrefix(s: string)
    ensures var r := TrimEnd(s); r == s[..|r|] && AllWhiteSpace(s[|r|..])
  {
    if |s| > 0 && IsWhiteSpace(s[|s| - 1]) {
      var r := TrimEnd(s[..|s| - 1]);
      TrimEndIsPrefix(s[..|s| - 1]);
      assert s[|r|..] == s[..|s| - 1][|r|..] + [s[|s| - 1]];
    }
  }

  /** String.prototype.trim: the infix of `s` left after removing white
      space at both ends. */
  function Trim(s: string): (r: string)
    ensures |r| <= |s|
    ensures r == [] || (!IsWhiteSpace(r[0]) && !IsWhiteSpace(r[|r| - 1]))
  {
    var t := TrimStart(s);
    TrimEndIsPrefix(t);
    TrimEnd(t)
  }

  /** What trim keeps is an infix of `s` with only white space around it. */
  lemma TrimIsInfix(s: string)
    ensures var r := Trim(s);
      exists i :: 0 <= i <= |s| - |r| && s[i..i + |r|] == r &&
                  AllWhiteSpace(s[..i]) && AllWhiteSpace(s[i + |r|..])
  {
    var t := TrimStart(s);
    var r := TrimEnd(t);
    var i := |s| - |t|;
    assert t == s[i..] && r == t[..|r|] && AllWhiteSpace(s[..i]) && AllWhiteSpace(t[|r|..]) by {
      TrimStartIsSuffix(s);
      TrimEndIsPrefix(t);
    }
    assert s[i..i + |r|] == r by { assert s[i..i + |r|] == s[i..][..|r|]; }
    assert s[i + |r|..] == t[|r|..] by { assert s[i + |r|..] == s[i..][|r|..]; }
    assert r == Trim(s);
    assert 0 <= i <= |s| - |r| && s[i..i + |r|] == r && AllWhiteSpace(s[..i]) && AllWhiteSpace(s[i + |r|..]);
  }

  /** Removing leading white space from a string that starts with white
      space `a` is the same as removing it from what follows `a`. */
  lemma {:induction false} TrimStartPadded(a: string, s: string)
    requires AllWhiteSpace(a)
    ensures TrimStart(a + s) == TrimStart(s)
  {
    if a != [] {
      assert (a + s)[0] == a[0] && (a + s)[1..] == a[1..] + s;
      TrimStartPadded(a[1..], s);
    } else {
      assert a + s == s;
    }
  }

  lemma {:induction false} TrimEndPadded(s: string, b: string)
    requires AllWhiteSpace(b)
    ensures TrimEnd(s + b) == TrimEnd(s)
  {
    if b != [] {
      assert (s + b)[|s + b| - 1] == b[|b| - 1];
      assert (s + b)[..|s + b| - 1] == s + b[..|b| - 1];
      TrimEndPadded(s, b[..|b| - 1]);
    } else {
      assert s + b == s;
    }
  }

  /** Once the leading white space is gone, trimming the end cannot bring
      any back. */
  lemma TrimEndKeepsStart(t: string)
    requires t == [] || !IsWhiteSpace(t[0])
    ensures TrimStart(TrimEnd(t)) == TrimEnd(t)
  {
  }

  /** White space around a line does not change what trim returns: this is
      why "  <h1>Welcome to our website</h1>  " is accepted for the line
      "<h1>Welcome to our website</h1>". */
  lemma TrimIgnoresPadding(a: string, s: string, b: string)
    requires AllWhiteSpace(a) && AllWhiteSpace(b)
    ensures Trim(a + s + b) == Trim(s)
  {
    assert a + s + b == a + (s + b);
    TrimStartPadded(a, s + b);
    TrimStartAppend(s, b);
    if TrimStart(s) != [] {
      TrimEndPadded(TrimStart(s), b);
    }
  }

  /** Trailing white space survives the removal of leading white space
      unless nothing else is left. */
  lemma TrimStartAppend(s: string, b: string)
    requires AllWhiteSpace(b)
    ensures TrimStart(s + b) == if TrimStart(s) == [] then [] else TrimStart(s) + b
  {
    var t := TrimStart(s);
    var w := s[..|s| - |t|];
    assert s + b == w + (t + b) && AllWhiteSpace(w) by {
      TrimStartIsSuffix(s);
    }
    assert TrimStart(s + b) == TrimStart(t + b) by {
      TrimStartPadded(w, t + b);
    }
    if t == [] {
      assert t + b == b + [];
      TrimStartPadded(b, []);
    } else {
      assert (t + b)[0] == t[0];
    }
  }

  /** A string that neither starts nor ends with white space is its own
      trim. */
  lemma TrimUnpadded(s: string)
    requires s == [] || (!IsWhiteSpace(s[0]) && !IsWhiteSpace(s[|s| - 1]))
    ensures Trim(s) == s
  {
  }

  /** Trimming twice is trimming once. */
  lemma TrimIdempotent(s: string)
    ensures Trim(Trim(s)) == Trim(s)
  {
    var t := TrimStart(s);
    TrimEndKeepsStart(t);
  }

  /** The decimal digits of a non-negative integer, as `${n}` renders it. */
  function NatToString(n: nat): (r: string)
    ensures |r| > 0 && AllDigits(r)
    ensures r[0] == '0' ==> n == 0
    decreases n
  {
    if n < 10 then [DigitChar(n)] else NatToString(n / 10) + [DigitChar(n % 10)]
  }

  function DigitChar(d: nat): (c: char)
    requires d < 10
    ensures IsDigit(c) && DigitValue(c) == d
  {
    ['0', '1', '2', '3', '4', '5', '6', '7', '8', '9'][d]
  }

  predicate IsDigit(c: char) { '0' <= c <= '9' }

  predicate AllDigits(s: string) { forall i :: 0 <= i < |s| ==> IsDigit(s[i]) }

  function DigitValue(c: char): nat
    requires IsDigit(c)
  {
    (c as int - '0' as int) as nat
  }

  /** The value a string of decimal digits denotes. */
  function DigitsValue(s: string): nat
    requires AllDigits(s)
  {
    if s == [] then 0 else 10 * DigitsValue(s[..|s| - 1]) + DigitValue(s[|s| - 1])
  }

  /** Reading the digits back gives the number that was written. */
  lemma {:induction false} NatToStringRoundTrip(n: nat)
    ensures DigitsValue(NatToString(n)) == n
    decreases n
  {
    if n >= 10 {
      var r := NatToString(n);
      assert r[..|r| - 1] == NatToString(n / 10);
      NatToStringRoundTrip(n / 10);
    }
  }

  /** Different numbers are written differently. */
  lemma NatToStringInjective(m: nat, n: nat)
    requires NatToString(m) == NatToString(n)
    ensures m == n
  {
    NatToStringRoundTrip(m);
    NatToStringRoundTrip(n);
  }
}
