/** The business-insight message chosen from the overall positive share. */
module Insight {
  import Summary

  datatype Insight = VerySatisfied | ModeratelyPositive | LargelyDissatisfied

  /** The `if / elif / else` on `positive_percent` with thresholds 70 and 50. */
  function Classify(positivePercent: real): (i: Insight)
    ensures i == VerySatisfied <==> positivePercent > 70.0
    ensures i == ModeratelyPositive <==> 50.0 < positivePercent <= 70.0
    ensures i == LargelyDissatisfied <==> positivePercent <= 50.0
  {
    if positivePercent > 70.0 then VerySatisfied
    else if positivePercent > 50.0 then ModeratelyPositive
    else LargelyDissatisfied
  }

  /** How favourable a message is: 0 for dissatisfied up to 2 for very satisfied. */
  function Rank(i: Insight): nat
  {
    match i
    case LargelyDissatisfied => 0
    case ModeratelyPositive => 1
    case VerySatisfied => 2
  }

  /** A larger positive share never yields a less favourable message. */
  lemma ClassifyMonotone(p: real, q: real)
    requires p <= q
    ensures Rank(Classify(p)) <= Rank(Classify(q))
  {
  }

  /** The boundary values: 71, 70, 50 and 0 percent. */
  lemma ClassifyBoundaries()
    ensures Classify(71.0) == VerySatisfied
    ensures Classify(70.0) == ModeratelyPositive
    ensures Classify(50.0) == LargelyDissatisfied
    ensures Classify(0.0) == LargelyDissatisfied
  {
  }

  /**
   * The message in terms of the row counts alone: very satisfied when more
   * than 7 in 10 rows are positive, moderately positive when more than half
   * but at most 7 in 10 are, and largely dissatisfied otherwise.
   */
  lemma ClassifyFromCounts(positive: nat, total: nat)
    requires total > 0
    ensures Classify(Summary.Percent(positive as real, total)) == VerySatisfied <==>
      10 * positive > 7 * total
    ensures Classify(Summary.Percent(positive as real, total)) == ModeratelyPositive <==>
      2 * positive > total && 10 * positive <= 7 * total
    ensures Classify(Summary.Percent(positive as real, total)) == LargelyDissatisfied <==>
      2 * positive <= total
  {
    var p := Summary.Percent(positive as real, total);
    assert p * total as real == (100 * positive) as real;
    Summary.AtMostScaled(p, 100 * positive, 70, total);
    Summary.AtMostScaled(p, 100 * positive, 50, total);
  }
}
