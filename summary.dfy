/** The KPI figures: total, positive and negative shares, mean confidence. */
module Summary {
  import opened Wrappers
  import opened Dataset

  /** Number of rows whose upper-cased sentiment equals `target`. */
  function CountLabel(rows: seq<Row>, target: string): (n: nat)
    ensures n <= |rows|
  {
    if rows == [] then 0
    else (if HasLabel(rows[0], target) then 1 else 0) + CountLabel(rows[1..], target)
  }

  /** Counting distributes over concatenation. */
  lemma {:induction false} CountLabelAppend(a: seq<Row>, b: seq<Row>, target: string)
    ensures CountLabel(a + b, target) == CountLabel(a, target) + CountLabel(b, target)
  {
    if a == [] {
      assert a + b == b;
    } else {
      assert (a + b)[1..] == a[1..] + b;
      CountLabelAppend(a[1..], b, target);
    }
  }

  /** Positive and negative rows are disjoint, so together they are at most all rows. */
  lemma {:induction false} PositivePlusNegativeAtMostTotal(rows: seq<Row>)
    ensures CountLabel(rows, PositiveLabel) + CountLabel(rows, NegativeLabel) <= |rows|
  {
    if rows != [] {
      LabelsExclusive(rows[0]);
      PositivePlusNegativeAtMostTotal(rows[1..]);
    }
  }

  /**
   * `(part / total) * 100`: `part` as a percentage of `total`, and also the
   * mean of `total` values summing to `part`, times 100.
   */
  function Percent(part: real, total: nat): (p: real)
    requires total > 0
    ensures p * total as real == 100.0 * part
  {
    part / total as real * 100.0
  }

  /** Multiplying by a positive factor preserves order both ways. */
  lemma ScaleCancel(a: real, b: real, n: real)
    requires n > 0.0
    ensures a * n <= b * n <==> a <= b
  {
    if a <= b {
      assert (b - a) * n >= 0.0;
    } else {
      assert (a - b) * n > 0.0;
    }
  }

  /** A value scaled by a positive count compares with a bound as the product does. */
  lemma AtMostScaled(p: real, scaled: int, bound: int, total: nat)
    requires total > 0 && p * total as real == scaled as real
    ensures p <= bound as real <==> scaled <= bound * total
  {
    var t := total as real;
    ScaleCancel(p, bound as real, t);
    assert bound as real * t == (bound * total) as real;
  }

  lemma PercentMonotone(x: real, y: real, total: nat)
    requires total > 0 && x <= y
    ensures Percent(x, total) <= Percent(y, total)
  {
    ScaleCancel(Percent(x, total), Percent(y, total), total as real);
  }

  lemma PercentOfMultiple(c: real, total: nat)
    requires total > 0
    ensures Percent(total as real * c, total) == 100.0 * c
  {
    var t := total as real;
    var p := Percent(t * c, total);
    assert p * t == 100.0 * (t * c);
    assert 100.0 * (t * c) == (100.0 * c) * t;
    ScaleCancel(p, 100.0 * c, t);
    ScaleCancel(100.0 * c, p, t);
  }

  /** Percentages of parts of a total that do not overlap add up to at most 100. */
  lemma PercentsOfDisjointParts(a: nat, b: nat, total: nat)
    requires total > 0 && a + b <= total
    ensures Percent(a as real, total) + Percent(b as real, total) <= 100.0
    ensures 0.0 <= Percent(a as real, total) && 0.0 <= Percent(b as real, total)
  {
    var t := total as real;
    var pa, pb := Percent(a as real, total), Percent(b as real, total);
    assert pa * t == (100 * a) as real && pb * t == (100 * b) as real;
    assert (pa + pb) * t == pa * t + pb * t;
    AtMostScaled(pa + pb, 100 * (a + b), 100, total);
    AtMostScaled(pa, 100 * a, 0, total);
    AtMostScaled(pb, 100 * b, 0, total);
  }

  /** Sum of the confidence column. */
  function ConfidenceSum(rows: seq<Row>): real
  {
    if rows == [] then 0.0 else rows[0].confidence + ConfidenceSum(rows[1..])
  }

  /** The KPI block computed from the whole upload. */
  datatype Stats = Stats(
    total: nat,
    positive: nat,
    negative: nat,
    positivePercent: real,
    negativePercent: real,
    averageConfidencePercent: real)

  /**
   * The KPI block of a dataset; `None` for an empty one, where the source
   * divides by a zero row count. Each share is its count as a percentage of
   * the rows, lies in [0, 100], and the two shares add up to at most 100; the
   * average is the mean confidence as a percentage.
   */
  function Summarize(rows: seq<Row>): (r: Option<Stats>)
    ensures r.None? <==> |rows| == 0
    ensures r.Some? ==> r.value.total == |rows|
    ensures r.Some? ==> r.value.positive == CountLabel(rows, PositiveLabel)
    ensures r.Some? ==> r.value.negative == CountLabel(rows, NegativeLabel)
    ensures r.Some? ==> IsShare(r.value.positivePercent, r.value.positive as real, |rows|)
    ensures r.Some? ==> IsShare(r.value.negativePercent, r.value.negative as real, |rows|)
    ensures r.Some? ==> IsShare(r.value.averageConfidencePercent, ConfidenceSum(rows), |rows|)
    ensures r.Some? ==> 0.0 <= r.value.positivePercent <= 100.0 && 0.0 <= r.value.negativePercent <= 100.0
    ensures r.Some? ==> r.value.positivePercent + r.value.negativePercent <= 100.0
  {
    if |rows| == 0 then None
    else
      PositivePlusNegativeAtMostTotal(rows);
      Some(MakeStats(|rows|, CountLabel(rows, PositiveLabel), CountLabel(rows, NegativeLabel),
                     ConfidenceSum(rows)))
  }

  /** `share` is `part` as a percentage of `total`, stated without a division. */
  predicate IsShare(share: real, part: real, total: nat)
  {
    share * total as real == 100.0 * part
  }

  /** The KPI block from the row count, the two disjoint label counts and the confidence sum. */
  function MakeStats(total: nat, positive: nat, negative: nat, confidenceSum: real): (s: Stats)
    requires total > 0 && positive + negative <= total
    ensures s.total == total && s.positive == positive && s.negative == negative
    ensures IsShare(s.positivePercent, positive as real, total)
    ensures IsShare(s.negativePercent, negative as real, total)
    ensures IsShare(s.averageConfidencePercent, confidenceSum, total)
    ensures 0.0 <= s.positivePercent <= 100.0 && 0.0 <= s.negativePercent <= 100.0
    ensures s.positivePercent + s.negativePercent <= 100.0
  {
    PercentsOfDisjointParts(positive, negative, total);
    Stats(total, positive, negative, Percent(positive as real, total), Percent(negative as real, total),
          Percent(confidenceSum, total))
  }

  /** Every confidence lies in [lo, hi]. */
  predicate ConfidencesWithin(rows: seq<Row>, lo: real, hi: real)
  {
    forall i :: 0 <= i < |rows| ==> lo <= rows[i].confidence <= hi
  }

  lemma {:induction false} ConfidenceSumBounds(rows: seq<Row>, lo: real, hi: real)
    requires ConfidencesWithin(rows, lo, hi)
    ensures |rows| as real * lo <= ConfidenceSum(rows) <= |rows| as real * hi
  {
    if rows != [] {
      assert ConfidencesWithin(rows[1..], lo, hi) by {
        forall i | 0 <= i < |rows| - 1 ensures lo <= rows[1..][i].confidence <= hi {
          assert rows[1..][i] == rows[i + 1];
        }
      }
      ConfidenceSumBounds(rows[1..], lo, hi);
      assert rows[0].confidence >= lo && rows[0].confidence <= hi;
    }
  }

  /**
   * The mean confidence lies between any bounds of the confidences; with
   * scores in [0, 1], the displayed average is in [0, 100].
   */
  lemma AverageWithinBounds(rows: seq<Row>, lo: real, hi: real)
    requires |rows| > 0 && ConfidencesWithin(rows, lo, hi)
    ensures 100.0 * lo <= Summarize(rows).value.averageConfidencePercent <= 100.0 * hi
  {
    var n := |rows|;
    ConfidenceSumBounds(rows, lo, hi);
    PercentMonotone(n as real * lo, ConfidenceSum(rows), n);
    PercentMonotone(ConfidenceSum(rows), n as real * hi, n);
    PercentOfMultiple(lo, n);
    PercentOfMultiple(hi, n);
  }
}
