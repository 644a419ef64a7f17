/** Filling a classification from ranked rule matches. */
module RuleBased {
  import opened Matcher

  datatype Result = Result(project: string, kind: string, priority: string, confidence: real)

  /** The first match whose rule has the field gives it. */
  function FirstGiven(ms: seq<Scored>, field: Rule -> string): string {
    if ms == [] then "" else if field(ms[0].rule) != "" then field(ms[0].rule) else FirstGiven(ms[1..], field)
  }

  const PROJECT := (r: Rule) => r.project
  const KIND := (r: Rule) => r.kind
  const PRIORITY := (r: Rule) => r.priority

  function Or(given: string, other: string): string { if given != "" then given else other }

  function Filled(result: Result, ms: seq<Scored>): Result {
    result.(project := Or(result.project, FirstGiven(ms, PROJECT)), kind := Or(result.kind, FirstGiven(ms, KIND)),
            priority := Or(result.priority, FirstGiven(ms, PRIORITY)))
  }

  method FillMissingFields(ms: seq<Scored>, start: Result) returns (result: Result)
    ensures result == Filled(start, ms)
  {
    result := start;
    for i := 0 to |ms|
      invariant Filled(result, ms[i..]) == Filled(start, ms)
    {
      ghost var before := result;
      assert ms[i..][1..] == ms[i + 1..];
      var rule := ms[i].rule;
      if result.project == "" && rule.project != "" { result := result.(project := rule.project); }
      if result.kind == "" && rule.kind != "" { result := result.(kind := rule.kind); }
      if result.priority == "" && rule.priority != "" { result := result.(priority := rule.priority); }
      assert Filled(result, ms[i + 1..]) == Filled(before, ms[i..]);
      if result.project != "" && result.kind != "" && result.priority != "" { break; }
    }
  }

  // ----- 64-bit floating point -----

  const EXACT := 0x20_0000_0000_0000 // 2 to the 53rd
  const INT_MAX := 0x7FFF_FFFF_FFFF_FFFF

  /** The 2 to the 53rd part. */
  function Slack(x: real): real { x / 9007199254740992.0 }

  /** How a conversion or an operation rounds: monotonously, exactly on the natural numbers up to 2
      to the 53rd, in the unit interval with an error of half a unit in the last place of one half, and
      above one with a relative error of 2 to the minus 53rd. Round to nearest even does. */
  ghost predicate Rounds(round: real -> real) {
    && (forall x, y :: x <= y ==> round(x) <= round(y))
    && (forall x :: 0.0 <= x <= EXACT as real && x.Floor as real == x ==> round(x) == x)
    && (forall x :: 0.0 <= x <= 1.0 ==> x - HALF_ULP <= round(x) <= x + HALF_ULP)
    && (forall x :: 1.0 <= x <= INT_MAX as real ==> x - Slack(x) <= round(x) <= x + Slack(x))
  }

  const HALF_ULP := 0.5 / EXACT as real

  /** The rounded quotient of the converted score and the converted score plus three. */
  function Confidence(round: real -> real, score: int): real
    requires Rounds(round) && score > 0
  {
    assert round(1.0) == 1.0;
    round(round(score as real) / round((score + 3) as real))
  }

  lemma NeverClamped(round: real -> real, score: int)
    requires Rounds(round) && score > 0
    ensures Confidence(round, score) <= 1.0
  {
    assert round(1.0) == 1.0;
    var x, y := round(score as real), round((score + 3) as real);
    QuotientOrder(x, y, 1.0, 1.0);
    assert round(x / y) <= round(1.0);
  }

  method FillFromRules(round: real -> real, ms: seq<Scored>, start: Result) returns (result: Result)
    requires Rounds(round)
    ensures ms == [] ==> result == start
    ensures ms != [] && ms[0].score > 0 ==> result == Filled(start.(confidence := Confidence(round, ms[0].score)), ms)
    ensures ms != [] && ms[0].score <= 0 ==> result == Filled(start, ms)
  {
    if |ms| == 0 { return start; }
    var r := start;
    var bestScore := ms[0].score;
    if bestScore > 0 {
      r := r.(confidence := Confidence(round, bestScore));
      NeverClamped(round, bestScore);
      if r.confidence > 1.0 { r := r.(confidence := 1.0); }
    }
    result := FillMissingFields(ms, r);
  }

  /** Match k has the field, and no match with the field outscores it. */
  predicate BestWith(ms: seq<Scored>, field: Rule -> string, k: nat) {
    && k < |ms| && field(ms[k].rule) != ""
    && forall j :: 0 <= j < |ms| && field(ms[j].rule) != "" ==> ms[j].score <= ms[k].score
  }

  /** A field that was empty comes from a matched rule that has it and that no matched rule with the
      field outscores; it stays empty only if no matched rule has it. */
  lemma {:induction false} BestRuleGivesField(ms: seq<Scored>, field: Rule -> string)
    requires Ranked(ms)
    ensures FirstGiven(ms, field) == "" <==> forall k :: 0 <= k < |ms| ==> field(ms[k].rule) == ""
    ensures FirstGiven(ms, field) != "" ==> exists k: nat :: BestWith(ms, field, k) && field(ms[k].rule) == FirstGiven(ms, field)
  {
    if ms != [] {
      var rest := ms[1..];
      assert forall j :: 0 < j < |ms| ==> ms[j] == rest[j - 1];
      BestRuleGivesField(rest, field);
      if field(ms[0].rule) != "" {
        assert BestWith(ms, field, 0);
      } else if FirstGiven(rest, field) != "" {
        var k: nat :| BestWith(rest, field, k) && field(rest[k].rule) == FirstGiven(rest, field);
        assert BestWith(ms, field, k + 1);
      }
    }
  }

  // ----- what the confidence says -----

  lemma Quotient(x: real, y: real)
    requires y > 0.0
    ensures (x / y) * y == x
  {
  }

  /** Comparing quotients is comparing cross products. */
  lemma QuotientOrder(x: real, y: real, u: real, v: real)
    requires y > 0.0 && v > 0.0
    ensures x / y <= u / v <==> x * v <= u * y
  {
    var p, q := x / y, u / v;
    Quotient(x, y);
    Quotient(u, v);
    assert x * v == (p * y) * v == p * (y * v);
    assert u * y == (q * v) * y == q * (y * v);
    SameSign(q - p, y * v);
    assert (q - p) * (y * v) == u * y - x * v;
  }

  lemma SameSign(d: real, p: real)
    requires p > 0.0
    ensures d * p >= 0.0 <==> d >= 0.0
  {
    if d < 0.0 {
      assert d * p < 0.0;
    }
  }

  lemma BoundsOfCross(x: real, y: real)
    requires 1.0 <= x <= y <= 4.0 * x
    ensures 0.25 <= x / y <= 1.0 && (2.0 * y <= 5.0 * x ==> x / y >= 0.4)
  {
    QuotientOrder(x, y, 1.0, 1.0);
    QuotientOrder(1.0, 4.0, x, y);
    QuotientOrder(2.0, 5.0, x, y);
  }

  /** The quotient is never above one, and from a score of two on at least two fifths. */
  lemma QuotientBounds(round: real -> real, score: int)
    requires Rounds(round) && 0 < score <= INT_MAX - 3
    ensures var x, y := round(score as real), round((score + 3) as real);
      1.0 <= x <= y && 0.25 <= x / y <= 1.0 && (score >= 2 ==> x / y >= 0.4)
  {
    assert round(1.0) == 1.0;
    assert (score + 3) as real == score as real + 3.0;
    CrossBounds(round, score);
    BoundsOfCross(round(score as real), round((score + 3) as real));
  }

  lemma LargeScores(s: real, x: real, y: real)
    requires s > EXACT as real - 3.0 && s - Slack(s) <= x && y <= s + 3.0 + Slack(s + 3.0)
    ensures y <= 4.0 * x && 2.0 * y <= 5.0 * x
  {
  }

  lemma NearlyExact(round: real -> real, x: real)
    requires Rounds(round) && 1.0 <= x <= INT_MAX as real
    ensures x - Slack(x) <= round(x) <= x + Slack(x)
    ensures x <= EXACT as real && x.Floor as real == x ==> round(x) == x
  {
  }

  lemma CrossOfRounded(s: real, x: real, y: real, exact: bool)
    requires s >= 1.0 && s - Slack(s) <= x && y <= s + 3.0 + Slack(s + 3.0)
    requires exact ==> x == s && y == s + 3.0
    requires !exact ==> s > EXACT as real - 3.0
    ensures y <= 4.0 * x && (s >= 2.0 ==> 2.0 * y <= 5.0 * x)
  {
    if !exact {
      LargeScores(s, x, y);
    }
  }

  lemma NearlyExactInt(round: real -> real, n: int)
    requires Rounds(round) && 1 <= n <= INT_MAX
    ensures n as real - Slack(n as real) <= round(n as real) <= n as real + Slack(n as real)
    ensures n <= EXACT ==> round(n as real) == n as real
  {
    NearlyExact(round, n as real);
    assert (n as real).Floor == n;
  }

  /** The bounds of the quotient as cross products. */
  lemma CrossBounds(round: real -> real, score: int)
    requires Rounds(round) && 0 < score <= INT_MAX - 3
    ensures var x, y := round(score as real), round((score + 3) as real);
      y <= 4.0 * x && (score >= 2 ==> 2.0 * y <= 5.0 * x)
  {
    NearlyExactInt(round, score);
    NearlyExactInt(round, score + 3);
    CrossOfRounded(score as real, round(score as real), round((score + 3) as real), score + 3 <= EXACT);
  }

  lemma ExactBounds(round: real -> real, score: int)
    requires Rounds(round) && 0 < score <= EXACT - 3
    ensures var x, y := round(score as real), round((score + 3) as real);
      y > 0.0 && x / y <= 1.0 - 3.0 / EXACT as real && (score == 1 ==> x / y == 0.25)
  {
    var s := score as real;
    assert round(s) == s && round(s + 3.0) == s + 3.0;
    QuotientOrder(s, s + 3.0, (EXACT - 3) as real, EXACT as real);
  }

  lemma RoundedQuotient(round: real -> real, q: real)
    requires Rounds(round) && 0.25 <= q <= 1.0
    ensures 0.0 < round(q) <= 1.0
    ensures q <= 1.0 - 3.0 / EXACT as real ==> round(q) < 1.0
    ensures q == 0.25 ==> round(q) < round(0.4)
    ensures q >= 0.4 ==> round(q) >= round(0.4)
  {
    assert round(1.0) == 1.0;
    assert q - HALF_ULP <= round(q) <= q + HALF_ULP;
    assert round(0.4) >= 0.4 - HALF_ULP;
  }

  /** Confidence lies above zero and is never clamped to one; it is below the triage limit of two
      fifths exactly for a best score of one. While the score is exact it stays below one. */
  lemma ConfidenceIsModest(round: real -> real, score: int)
    requires Rounds(round) && 0 < score <= INT_MAX - 3
    ensures 0.0 < Confidence(round, score) <= 1.0
    ensures score + 3 <= EXACT ==> Confidence(round, score) < 1.0
    ensures Confidence(round, score) < round(0.4) <==> score < 2
  {
    QuotientBounds(round, score);
    if score + 3 <= EXACT {
      ExactBounds(round, score);
    }
    RoundedQuotient(round, round(score as real) / round((score + 3) as real));
  }

  /** A higher score never has the lower confidence, and below 2 to the 27th it has the higher. */
  lemma ConfidenceGrows(round: real -> real, score: int, more: int)
    requires Rounds(round) && 0 < score < more <= EXACT - 3
    ensures Confidence(round, score) <= Confidence(round, more)
    ensures more + 3 <= 0x800_0000 ==> Confidence(round, score) < Confidence(round, more)
  {
    var s, m := score as real, more as real;
    Exactly(round, score);
    Exactly(round, more);
    ExactOrder(s, m);
    RoundedApart(round, s / (s + 3.0), m / (m + 3.0));
  }

  lemma ExactOrder(s: real, m: real)
    requires 1.0 <= s && s + 1.0 <= m
    ensures 0.0 <= s / (s + 3.0) <= m / (m + 3.0) <= 1.0
    ensures m + 3.0 <= 0x800_0000 as real ==> s / (s + 3.0) + 2.0 * HALF_ULP < m / (m + 3.0)
  {
    UnitQuotient(s);
    UnitQuotient(m);
    QuotientOrder(s, s + 3.0, m, m + 3.0);
    if m + 3.0 <= 0x800_0000 as real {
      QuotientGap(s, m, 0x800_0000 as real, 2.0 * HALF_ULP);
    }
  }

  lemma Exactly(round: real -> real, score: int)
    requires Rounds(round) && 0 < score <= EXACT - 3
    ensures Confidence(round, score) == round(score as real / (score as real + 3.0))
  {
    var s := score as real;
    assert round(s) == s && round(s + 3.0) == s + 3.0;
    assert (score + 3) as real == s + 3.0;
  }

  lemma UnitQuotient(s: real)
    requires s > 0.0
    ensures 0.0 <= s / (s + 3.0) <= 1.0
  {
    QuotientOrder(s, s + 3.0, 1.0, 1.0);
    QuotientOrder(0.0, 1.0, s, s + 3.0);
  }

  lemma RoundedApart(round: real -> real, c: real, d: real)
    requires Rounds(round) && 0.0 <= c <= 1.0 && 0.0 <= d <= 1.0 && c <= d
    ensures round(c) <= round(d) && (c + 2.0 * HALF_ULP < d ==> round(c) < round(d))
  {
    assert round(c) <= c + HALF_ULP && d - HALF_ULP <= round(d);
  }

  /** Quotients of different scores lie further apart than three over the product of the divisors. */
  lemma QuotientGap(s: real, m: real, top: real, gap: real)
    requires 1.0 <= s && s + 1.0 <= m && m + 3.0 <= top && gap * (top * top) <= 2.0 && gap >= 0.0
    ensures s / (s + 3.0) + gap < m / (m + 3.0)
  {
    var c, d, p := s / (s + 3.0), m / (m + 3.0), (s + 3.0) * (m + 3.0);
    Quotient(s, s + 3.0);
    Quotient(m, m + 3.0);
    Regrouped(c, d, s, m);
    Scaled(s + 3.0, top, m + 3.0);
    Scaled(m + 3.0, top, top);
    assert p > 0.0 by { Positive(s + 3.0, m + 3.0); }
    assert p <= top * (m + 3.0) == (m + 3.0) * top <= top * top;
    Apart(d - c, p, top * top, gap);
  }

  lemma Regrouped(c: real, d: real, s: real, m: real)
    requires c * (s + 3.0) == s && d * (m + 3.0) == m
    ensures (d - c) * ((s + 3.0) * (m + 3.0)) == 3.0 * (m - s)
  {
    var p := (s + 3.0) * (m + 3.0);
    assert d * p == (d * (m + 3.0)) * (s + 3.0) == m * (s + 3.0);
    assert c * p == (c * (s + 3.0)) * (m + 3.0) == s * (m + 3.0);
  }

  lemma Positive(x: real, y: real)
    requires x > 0.0 && y > 0.0
    ensures x * y > 0.0
  {
  }

  lemma Scaled(x: real, y: real, p: real)
    requires x <= y && p >= 0.0
    ensures x * p <= y * p
  {
  }

  lemma Apart(d: real, p: real, w: real, gap: real)
    requires d * p >= 3.0 && 0.0 < p <= w && gap >= 0.0 && gap * w <= 2.0
    ensures d > gap
  {
    if d <= gap {
      Scaled(d, gap, p);
      Scaled(p, w, gap);
    }
  }
}
