// Risk and compliance scores (backend/app/evaluation/scoring.py).

module Scoring {
  function Clamp(value: int): (r: nat)
    ensures r <= 100
  {
    if value < 0 then 0 else if value > 100 then 100 else value
  }

  function Sum(scores: seq<nat>): nat {
    if scores == [] then 0 else scores[0] + Sum(scores[1..])
  }

  /** max(scores, default=0) */
  function Max(scores: seq<nat>): nat {
    if scores == [] then 0 else if scores[0] > Max(scores[1..]) then scores[0] else Max(scores[1..])
  }

  /** Python's round(numerator / denominator): to the nearest integer, ties to even. */
  function RoundHalfEven(numerator: int, denominator: nat): int
    requires denominator > 0
  {
    var q, r := numerator / denominator, numerator % denominator;
    if 2 * r < denominator || (2 * r == denominator && q % 2 == 0) then q else q + 1
  }

  /** 100 minus the average risk, rounded. */
  function ComplianceScore(scores: seq<nat>): (r: nat)
    ensures r <= 100
  {
    if scores == [] then 100
    else Clamp(RoundHalfEven(100 * |scores| - Sum(scores), |scores|))
  }

  // ------------------------------------------------------------------ rounding

  /** What makes a number the rounding of a quotient: at most half a unit away, and even
      when it is exactly half a unit away. */
  ghost predicate Rounds(numerator: int, denominator: nat, rounded: int) {
    && 0 - denominator <= 2 * (numerator - denominator * rounded) <= denominator
    && (2 * (numerator - denominator * rounded) in {denominator, 0 - denominator} ==> rounded % 2 == 0)
  }

  lemma RoundHalfEvenRounds(a: int, d: nat)
    requires d > 0
    ensures Rounds(a, d, RoundHalfEven(a, d))
  {
    assert a == d * (a / d) + a % d;
    assert d * (a / d + 1) == d * (a / d) + d;
  }

  /** One step up in the rounded value is d up in the numerator. */
  lemma Steps(d: nat, low: int, high: int)
    requires low < high
    ensures d * high >= d * low + d
    ensures high - low >= 2 ==> d * high >= d * low + 2 * d
  {
    assert d * high == d * low + d * (high - low);
    assert d * (high - low) == d + d * (high - low - 1);
    if high - low >= 2 { assert d * (high - low - 1) >= d; }
  }

  lemma RoundedInOrder(a: int, b: int, d: nat, roundedA: int, roundedB: int)
    requires d > 0 && a <= b && Rounds(a, d, roundedA) && Rounds(b, d, roundedB)
    ensures roundedA <= roundedB
  {
    if roundedB < roundedA {
      Steps(d, roundedB, roundedA);
    }
  }

  /** A larger numerator never rounds to less. */
  lemma RoundingIsMonotone(a: int, b: int, d: nat)
    requires d > 0 && a <= b
    ensures RoundHalfEven(a, d) <= RoundHalfEven(b, d)
  {
    RoundHalfEvenRounds(a, d);
    RoundHalfEvenRounds(b, d);
    RoundedInOrder(a, b, d, RoundHalfEven(a, d), RoundHalfEven(b, d));
  }

  lemma WholeNumbersRoundToThemselves(whole: nat, d: nat)
    requires d > 0
    ensures RoundHalfEven(whole * d, d) == whole
  {
    RoundHalfEvenRounds(whole * d, d);
    assert Rounds(whole * d, d, whole) by { assert whole * d - d * whole == 0; }
    RoundedInOrder(whole * d, whole * d, d, RoundHalfEven(whole * d, d), whole);
    RoundedInOrder(whole * d, whole * d, d, whole, RoundHalfEven(whole * d, d));
  }

  // --------------------------------------------------------- laws of the scores

  lemma {:induction false} MaxIsGreatest(scores: seq<nat>)
    ensures forall i | 0 <= i < |scores| :: scores[i] <= Max(scores)
    ensures if scores == [] then Max(scores) == 0 else Max(scores) in scores
  {
    if scores != [] {
      MaxIsGreatest(scores[1..]);
      assert forall i | 1 <= i < |scores| :: scores[i] == scores[1..][i - 1];
    }
  }

  lemma {:induction false} SumAtMost(scores: seq<nat>, bound: nat)
    requires forall i | 0 <= i < |scores| :: scores[i] <= bound
    ensures Sum(scores) <= |scores| * bound
  {
    if scores != [] { SumAtMost(scores[1..], bound); }
  }

  /** The sum adds up one by one, wherever the list is cut. */
  lemma {:induction false} SumAdds(a: seq<nat>, b: seq<nat>)
    ensures Sum([]) == 0 && forall x: nat :: Sum([x]) == x
    ensures Sum(a + b) == Sum(a) + Sum(b)
  {
    forall x: nat ensures Sum([x]) == x { assert [x][1..] == []; }
    if a == [] {
      assert a + b == b;
    } else {
      assert (a + b)[1..] == a[1..] + b;
      SumAdds(a[1..], b);
    }
  }

  lemma TakenOut(scores: seq<nat>, i: nat)
    requires i < |scores|
    ensures var rest := scores[..i] + scores[i + 1..];
      Sum(scores) == scores[i] + Sum(rest) && multiset(scores) - multiset{scores[i]} == multiset(rest)
  {
    var rest := scores[..i] + scores[i + 1..];
    assert scores == scores[..i] + ([scores[i]] + scores[i + 1..]);
    SumAdds(scores[..i], [scores[i]] + scores[i + 1..]);
    SumAdds([scores[i]], scores[i + 1..]);
    SumAdds(scores[..i], scores[i + 1..]);
    assert multiset(scores) == multiset(scores[..i]) + multiset([scores[i]] + scores[i + 1..]);
    assert multiset(scores) == multiset(rest) + multiset{scores[i]};
  }

  lemma PlaceOf(scores: seq<nat>, x: nat) returns (i: nat)
    requires x in multiset(scores)
    ensures i < |scores| && scores[i] == x
  {
    i :| 0 <= i < |scores| && scores[i] == x;
  }

  /** The sum depends on the scores alone, not on their order. */
  lemma {:induction false} SumOfSameScores(a: seq<nat>, b: seq<nat>)
    requires multiset(a) == multiset(b)
    ensures Sum(a) == Sum(b)
  {
    assert |multiset(a)| == |a| && |multiset(b)| == |b|;
    if a != [] {
      assert a[0] in multiset(a);
      var i := PlaceOf(b, a[0]);
      var rest := b[..i] + b[i + 1..];
      TakenOut(b, i);
      assert multiset(a) - multiset{a[0]} == multiset(a[1..]) by { assert a == [a[0]] + a[1..]; }
      SumOfSameScores(a[1..], rest);
    }
  }

  /** The compliance score is 100 minus the average risk, rounded to the nearest integer; no
      score is cut off. */
  lemma ComplianceIsAverage(scores: seq<nat>)
    requires forall i | 0 <= i < |scores| :: scores[i] <= 100
    ensures scores == [] ==> ComplianceScore(scores) == 100
    ensures scores != [] ==> Rounds(100 * |scores| - Sum(scores), |scores|, ComplianceScore(scores))
  {
    if scores != [] {
      var n := |scores|;
      SumAtMost(scores, 100);
      RoundHalfEvenRounds(100 * n - Sum(scores), n);
      RoundingIsMonotone(0, 100 * n - Sum(scores), n);
      RoundingIsMonotone(100 * n - Sum(scores), 100 * n, n);
      WholeNumbersRoundToThemselves(0, n);
      WholeNumbersRoundToThemselves(100, n);
    }
  }

  /** Compliance and risk of the same scores never add up to less than 100. */
  lemma ScoresCoverHundred(scores: seq<nat>)
    requires forall i | 0 <= i < |scores| :: scores[i] <= 100
    ensures ComplianceScore(scores) + Max(scores) >= 100
  {
    if scores != [] {
      MaxIsGreatest(scores);
      SumAtMost(scores, Max(scores));
      AverageAtMost(|scores|, Sum(scores), Max(scores));
    }
  }

  lemma AverageAtMost(n: nat, sum: nat, top: nat)
    requires n > 0 && sum <= n * top && top <= 100
    ensures RoundHalfEven(100 * n - sum, n) >= 100 - top
  {
    assert (100 - top) * n == 100 * n - n * top;
    RoundingIsMonotone((100 - top) * n, 100 * n - sum, n);
    WholeNumbersRoundToThemselves(100 - top, n);
  }

  lemma {:induction false} SmallerSum(a: seq<nat>, b: seq<nat>)
    requires |a| == |b| && forall i | 0 <= i < |a| :: a[i] <= b[i]
    ensures Sum(a) <= Sum(b)
  {
    if a != [] { SmallerSum(a[1..], b[1..]); }
  }

  /** Scores that are lower one by one give no higher risk and no lower compliance. */
  lemma LowerScoresAreBetter(a: seq<nat>, b: seq<nat>)
    requires |a| == |b| && forall i | 0 <= i < |a| :: a[i] <= b[i]
    ensures Max(a) <= Max(b) && ComplianceScore(a) >= ComplianceScore(b)
  {
    SmallerSum(a, b);
    MaxIsGreatest(a);
    MaxIsGreatest(b);
    if a != [] {
      RoundingIsMonotone(100 * |b| - Sum(b), 100 * |a| - Sum(a), |a|);
    }
  }
}
