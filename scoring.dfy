/** The figures the game reports: the progress counter of updateStats and
    the accuracy and its message in showResults. */
module Scoring {
  import opened Wrappers
  import opened JsString

  /** `${correctLines}/${totalLines}`. */
  function ProgressText(correct: nat, total: nat): string {
    NatToString(correct) + "/" + NatToString(total)
  }

  /** The index of the first '/' in `s`, if any. */
  function SlashAt(s: string): (r: Option<nat>)
    ensures r.Some? ==> r.value < |s| && s[r.value] == '/'
    ensures r.Some? ==> forall j :: 0 <= j < r.value ==> s[j] != '/'
  {
    if s == [] then None
    else if s[0] == '/' then Some(0)
    else match SlashAt(s[1..])
      case None => None
      case Some(k) => Some(k + 1)
  }

  /** Reading a progress counter: two non-empty runs of digits around a
      slash. */
  function ParseProgress(s: string): Option<(nat, nat)> {
    match SlashAt(s)
    case None => None
    case Some(k) =>
      var a, b := s[..k], s[k + 1..];
      if a != [] && b != [] && AllDigits(a) && AllDigits(b)
      then Some((DigitsValue(a), DigitsValue(b)))
      else None
  }

  lemma {:induction false} SlashAfterDigits(d: string, rest: string)
    requires AllDigits(d)
    ensures SlashAt(d + "/" + rest) == Some(|d|)
  {
    if d != [] {
      assert (d + "/" + rest)[0] == d[0];
      assert (d + "/" + rest)[1..] == d[1..] + "/" + rest;
      SlashAfterDigits(d[1..], rest);
    }
  }

  /** The progress counter names both figures unambiguously: reading it
      back gives the count of correct lines and the number of lines. */
  lemma ProgressRoundTrip(correct: nat, total: nat)
    ensures ParseProgress(ProgressText(correct, total)) == Some((correct, total))
  {
    var a, b := NatToString(correct), NatToString(total);
    var s := ProgressText(correct, total);
    SlashAfterDigits(a, b);
    assert s[..|a|] == a && s[|a| + 1..] == b;
    NatToStringRoundTrip(correct);
    NatToStringRoundTrip(total);
  }

  /** q, the division of 2n + d by 2d, is n/d rounded half up. */
  lemma RoundHalfUp(n: nat, d: nat)
    requires d > 0
    ensures var q := (2 * n + d) / (2 * d);
      (2 * q - 1) * d <= 2 * n < (2 * q + 1) * d
  {
    var q := (2 * n + d) / (2 * d);
    var r := (2 * n + d) % (2 * d);
    assert 2 * n + d == q * (2 * d) + r && 0 <= r < 2 * d;
    assert q * (2 * d) == 2 * q * d;
    assert (2 * q - 1) * d == 2 * q * d - d;
    assert (2 * q + 1) * d == 2 * q * d + d;
  }

  /** The accuracy in percent: 100 without any attempt, otherwise the share
      of correct submissions among all submissions, rounded half up to an
      integer, as Math.round does. */
  function Accuracy(correct: nat, errors: nat): (r: nat)
    ensures r <= 100
    ensures correct + errors == 0 ==> r == 100
    ensures correct + errors > 0 ==>
      (2 * r - 1) * (correct + errors) <= 200 * correct < (2 * r + 1) * (correct + errors)
  {
    var t := correct + errors;
    if t == 0 then 100
    else
      ShareRounded(correct, t);
      (200 * correct + t) / (2 * t)
  }

  lemma ShareRounded(correct: nat, t: nat)
    requires 0 < t && correct <= t
    ensures var q := (200 * correct + t) / (2 * t);
      q <= 100 && (2 * q - 1) * t <= 200 * correct < (2 * q + 1) * t
  {
    RoundHalfUp(100 * correct, t);
    var q := (200 * correct + t) / (2 * t);
    if q > 100 {
      MulMono(201, 2 * q - 1, t);
    }
  }

  /** The rounded value is the only integer within half a point of the
      exact share. */
  lemma AccuracyUnique(correct: nat, errors: nat, r: int)
    requires correct + errors > 0
    requires (2 * r - 1) * (correct + errors) <= 200 * correct < (2 * r + 1) * (correct + errors)
    ensures r == Accuracy(correct, errors)
  {
    var t, a := correct + errors, Accuracy(correct, errors);
    if r < a {
      assert (2 * r + 1) * t <= (2 * a - 1) * t by { MulMono(2 * r + 1, 2 * a - 1, t); }
    } else if r > a {
      assert (2 * a + 1) * t <= (2 * r - 1) * t by { MulMono(2 * a + 1, 2 * r - 1, t); }
    }
  }

  lemma MulMono(x: int, y: int, t: nat)
    requires x <= y
    ensures x * t <= y * t
  {
    assert y * t - x * t == (y - x) * t;
  }

  /** The message tiers of showResults. */
  datatype Tier = Perfect | VeryGood | Good | KeepPractising

  function TierOf(accuracy: nat): (t: Tier)
    ensures t == Perfect <==> accuracy == 100
    ensures t == VeryGood <==> accuracy != 100 && accuracy >= 90
    ensures t == Good <==> 80 <= accuracy < 90
    ensures t == KeepPractising <==> accuracy < 80
  {
    if accuracy == 100 then Perfect
    else if accuracy >= 90 then VeryGood
    else if accuracy >= 80 then Good
    else KeepPractising
  }

  /** The rank of a tier, best first counting from 3. */
  function Rank(t: Tier): nat {
    match t
    case Perfect => 3
    case VeryGood => 2
    case Good => 1
    case KeepPractising => 0
  }

  /** A higher accuracy never earns a lower tier (on the values Accuracy
      can take). */
  lemma TierMonotone(a: nat, b: nat)
    requires a <= b <= 100
    ensures Rank(TierOf(a)) <= Rank(TierOf(b))
  {
  }

  /** The text shown for each tier. */
  function Message(t: Tier): (m: string)
    ensures |m| > 0
  {
    match t
    case Perfect => "🌟 パーフェクト！素晴らしい正確性です！"
    case VeryGood => "🎯 とても良い成績です！"
    case Good => "👍 良い結果です！"
    case KeepPractising => "💪 練習を続けて上達しましょう！"
  }

  /** A perfect score needs, with rounding, at least 199 correct lines per
      mistake. */
  lemma PerfectIff(correct: nat, errors: nat)
    ensures Accuracy(correct, errors) == 100 <==> correct >= 199 * errors
  {
    var t := correct + errors;
    if t > 0 {
      var a := Accuracy(correct, errors);
      if correct >= 199 * errors {
        AccuracyUnique(correct, errors, 100);
      } else {
        assert a != 100;
      }
    }
  }

  /** One more mistake never raises the accuracy. */
  lemma AccuracyAntitone(correct: nat, errors: nat)
    ensures Accuracy(correct, errors + 1) <= Accuracy(correct, errors)
  {
    var a, b := Accuracy(correct, errors), Accuracy(correct, errors + 1);
    var t := correct + errors;
    if t > 0 && b > a {
      // (2a + 1) t > 200 correct >= (2b - 1)(t + 1) >= (2a + 1)(t + 1)
      MulMono(2 * a + 1, 2 * b - 1, t + 1);
    }
  }

  /** A finished round has ten correct lines; its tier depends only on the
      number of mistakes: none is perfect, one is very good, two is good,
      three or more asks for more practice. */
  lemma RoundTier(errors: nat)
    ensures TierOf(Accuracy(10, errors)) ==
      (if errors == 0 then Perfect
       else if errors == 1 then VeryGood
       else if errors == 2 then Good
       else KeepPractising)
  {
    var a := Accuracy(10, errors);
    if errors == 0 {
    } else if errors == 1 {
      AccuracyUnique(10, 1, 91);
    } else if errors == 2 {
      AccuracyUnique(10, 2, 83);
    } else {
      // (2a - 1)(10 + errors) <= 2000 with 10 + errors >= 13
      if a >= 80 {
        MulMono(159, 2 * a - 1, 10 + errors);
      }
    }
  }
}
