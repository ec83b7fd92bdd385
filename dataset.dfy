/** One row of the uploaded review table and the upper-cased target test. */
module Dataset {
  import Text

  /** A review row: its raw sentiment target, the model's confidence and the text. */
  datatype Row = Row(sentiment: string, confidence: real, review: string)

  const PositiveLabel: string := "POSITIVE"
  const NegativeLabel: string := "NEGATIVE"

  /** `row['sentiment'].str.upper() == target`. */
  predicate HasLabel(row: Row, target: string)
  {
    Text.Upper(row.sentiment) == target
  }

  /** No row carries both the positive and the negative target. */
  lemma LabelsExclusive(row: Row)
    ensures !(HasLabel(row, PositiveLabel) && HasLabel(row, NegativeLabel))
  {
    if HasLabel(row, PositiveLabel) {
      assert Text.Upper(row.sentiment)[0] == 'P';
    }
  }

  /** The target test ignores ASCII case: "positive" and "Positive" count as POSITIVE. */
  lemma HasLabelIgnoresCase(row: Row, target: string)
    ensures HasLabel(row, target) <==> HasLabel(Row(Text.Lower(row.sentiment), row.confidence, row.review), target)
  {
    var s := row.sentiment;
    assert Text.Upper(s) == Text.Upper(Text.Lower(s));
  }
}
