/** The performance rating shown after a submission: four fixed bands over
    the percentage of correct answers. */
module Rating {

  datatype Rating = Excellent | Good | Average | NeedsImprovement

  /** The label the page shows. */
  function Label(r: Rating): string {
    match r
    case Excellent => "Excellent"
    case Good => "Good"
    case Average => "Average"
    case NeedsImprovement => "Needs Improvement"
  }

  /** Bands from the lowest (0) to the highest (3). */
  function Rank(r: Rating): nat {
    match r
    case NeedsImprovement => 0
    case Average => 1
    case Good => 2
    case Excellent => 3
  }

  /** `(score / question_count) * 100`, in exact arithmetic. */
  function Percentage(score: nat, count: nat): real
    requires count > 0
  {
    (score as real / count as real) * 100.0
  }

  /** The percentage reaches `bound` exactly when `100 * score` reaches
      `bound * count`. */
  lemma PercentageAtLeast(score: nat, count: nat, bound: nat)
    requires count > 0
    ensures Percentage(score, count) >= bound as real <==> 100 * score >= bound * count
  {
    var c := count as real;
    var p := Percentage(score, count);
    assert p * c == 100.0 * score as real;
    if p >= bound as real {
      assert p * c >= bound as real * c;
    } else {
      assert p * c < bound as real * c;
    }
  }

  /** The rating of `score` correct answers out of `count`; the first band
      the percentage reaches wins, so exactly 80, 60 and 40 percent fall into
      the higher band. */
  function Rate(score: nat, count: nat): (r: Rating)
    requires count > 0
    ensures r == Excellent <==> 100 * score >= 80 * count
    ensures r == Good <==> 60 * count <= 100 * score < 80 * count
    ensures r == Average <==> 40 * count <= 100 * score < 60 * count
    ensures r == NeedsImprovement <==> 100 * score < 40 * count
  {
    PercentageAtLeast(score, count, 80);
    PercentageAtLeast(score, count, 60);
    PercentageAtLeast(score, count, 40);
    var pct := Percentage(score, count);
    if pct >= 80.0 then Excellent
    else if pct >= 60.0 then Good
    else if pct >= 40.0 then Average
    else NeedsImprovement
  }

  /** For a fixed number of questions, more correct answers never give a
      lower rating. */
  lemma RateMonotone(s1: nat, s2: nat, count: nat)
    requires count > 0 && s1 <= s2
    ensures Rank(Rate(s1, count)) <= Rank(Rate(s2, count))
  {
  }

  /** Eight correct out of ten is exactly 80 percent and rates Excellent;
      six and four out of ten fall in Good and Average; 3999 out of 10000
      (39.99 percent) needs improvement. */
  lemma BoundaryExamples()
    ensures Rate(8, 10) == Excellent
    ensures Rate(6, 10) == Good
    ensures Rate(4, 10) == Average
    ensures Rate(3999, 10000) == NeedsImprovement
  {
  }
}
