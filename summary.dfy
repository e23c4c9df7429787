/** The result shown when a quiz is complete: the score as a rounded
    percentage of the number of questions, and whether it reaches the
    passing mark of 70%. */
module ResultSummary {
  import opened Wrappers

  /** The passing mark, in percent. */
  const PassingPercentage: int := 70

  /** `Math.round((score / total) * 100)`, in exact arithmetic: the integer
      nearest to `100 * score / total`, halves rounded up. `None` stands for
      the `NaN` that `0 / 0` gives when the quiz has no question. The score
      never exceeds the number of questions, so `score / 0` with a positive
      score (`Infinity`) does not arise. */
  function Percentage(score: nat, total: nat): (p: Option<int>)
    requires score <= total
    ensures p.None? <==> total == 0
    ensures p.Some? ==> 2 * total * p.value <= 200 * score + total < 2 * total * p.value + 2 * total
    ensures p.Some? ==> 0 <= p.value <= 100
  {
    if total == 0 then None
    else
      var q := (200 * score + total) / (2 * total);
      DivBounds(200 * score + total, 2 * total);
      assert q <= 100 by {
        MulCancel(2 * total, q, 101);
      }
      Some(q)
  }

  /** `percentage >= 70`; false for `NaN`. */
  predicate Passed(score: nat, total: nat)
    requires score <= total
  {
    var p := Percentage(score, total);
    p.Some? && p.value >= PassingPercentage
  }

  /** What the completion screen reports. */
  datatype Summary = Summary(score: nat, total: nat, percentage: Option<int>, passed: bool)

  /** The completion screen for `score` correct answers out of `total`. */
  function Summarize(score: nat, total: nat): Summary
    requires score <= total
  {
    Summary(score, total, Percentage(score, total), Passed(score, total))
  }

  /** The quotient of Euclidean division lies within one divisor of `n`. */
  lemma DivBounds(n: int, d: int)
    requires d > 0
    ensures d * (n / d) <= n < d * (n / d) + d
  {
    assert n == d * (n / d) + n % d;
  }

  /** Multiplying by a positive `d` keeps strict order, both ways. */
  lemma MulCancel(d: int, a: int, b: int)
    requires d > 0
    ensures d * a < d * b <==> a < b
    ensures d * (a + 1) == d * a + d
  {
    assert d * b - d * a == d * (b - a);
  }

  /** The rounded percentage is the one integer within half a point of the
      exact ratio, halves going up: any integer in that window is it. */
  lemma PercentageIsNearest(score: nat, total: nat, p: int)
    requires 0 < total && score <= total
    requires 2 * total * p <= 200 * score + total < 2 * total * p + 2 * total
    ensures Percentage(score, total) == Some(p)
  {
    var q := Percentage(score, total).value;
    var d := 2 * total;
    MulCancel(d, p, q + 1);
    MulCancel(d, q, p + 1);
  }

  /** Passing needs at least 69.5% before rounding: `200 * score >= 139 * total`. */
  lemma PassedExactly(score: nat, total: nat)
    requires score <= total
    ensures Passed(score, total) <==> total > 0 && 200 * score >= 139 * total
  {
    if total > 0 {
      var p := Percentage(score, total).value;
      var d := 2 * total;
      MulCancel(d, p, 70);
      MulCancel(d, 70, p + 1);
    }
  }

  /** A quiz without questions (and so with a score of zero) has no
      percentage and is never passed. */
  lemma EmptyQuizFails()
    ensures Percentage(0, 0).None?
    ensures !Passed(0, 0)
  {
  }

  /** One more correct answer never turns a pass into a fail. */
  lemma PassedMonotone(score: nat, total: nat)
    requires score + 1 <= total && Passed(score, total)
    ensures Passed(score + 1, total)
  {
    PassedExactly(score, total);
    PassedExactly(score + 1, total);
  }

  /** 7 of 10 is exactly 70% and passes; 6 of 10 is 60% and fails; 1 of 8 is
      12.5%, which rounds up to 13. */
  lemma PassMarkExamples()
    ensures Percentage(7, 10) == Some(70) && Passed(7, 10)
    ensures Percentage(6, 10) == Some(60) && !Passed(6, 10)
    ensures Percentage(1, 8) == Some(13)
    ensures Percentage(2, 3) == Some(67)
  {
    PercentageIsNearest(7, 10, 70);
    PercentageIsNearest(6, 10, 60);
    PercentageIsNearest(1, 8, 13);
    PercentageIsNearest(2, 3, 67);
  }
}
