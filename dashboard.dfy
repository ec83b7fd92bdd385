/**
 * One run of the dashboard script over an uploaded table: the column check,
 * the KPI block, the filtered view, the two word-cloud texts and the insight.
 * The widget state is a parameter; rendering is not modelled.
 */
module Dashboard {
  import opened Wrappers
  import opened Dataset
  import opened Columns
  import opened Summary
  import opened Filtering
  import opened Extraction
  import opened Insight

  /** What the script computes once the upload has passed the column check. */
  datatype View = View(
    stats: Stats,
    filtered: seq<Row>,
    positiveText: string,
    negativeText: string,
    insight: Insight)

  /**
   * The outcome of one run: stopped at a missing column, undefined for a
   * table with no rows, or a computed view.
   */
  datatype Page = MissingColumn(column: string) | NoRows | Shown(view: View)

  /**
   * The script from the column check to the insight, for the upload's column
   * names `columns`, its rows, and the sidebar state `c`.
   */
  function Run(columns: seq<string>, rows: seq<Row>, c: Criteria): (p: Page)
    ensures p.MissingColumn? <==> CheckColumns(columns).Missing?
    ensures p.MissingColumn? ==> CheckColumns(columns) == Missing(p.column)
    ensures p.NoRows? <==> CheckColumns(columns) == AllPresent && rows == []
    ensures p.Shown? ==> Summarize(rows) == Some(p.view.stats)
    ensures p.Shown? ==>
      && p.view.stats.total == |rows| > 0
      && p.view.stats.positive == CountLabel(rows, PositiveLabel)
      && p.view.stats.negative == CountLabel(rows, NegativeLabel)
      && 0.0 <= p.view.stats.positivePercent <= 100.0
      && 0.0 <= p.view.stats.negativePercent <= 100.0
      && p.view.stats.positivePercent + p.view.stats.negativePercent <= 100.0
    ensures p.Shown? ==>
      && IsSubsequence(p.view.filtered, rows)
      && (forall i :: 0 <= i < |p.view.filtered| ==> Keeps(c, p.view.filtered[i]))
      && (forall row :: row in rows && Keeps(c, row) ==> row in p.view.filtered)
      && (forall row :: multiset(p.view.filtered)[row] ==
            if Keeps(c, row) then multiset(rows)[row] else 0)
    ensures p.Shown? ==>
      && p.view.positiveText == PositiveText(p.view.filtered)
      && p.view.negativeText == NegativeText(p.view.filtered)
      && p.view.insight == Classify(p.view.stats.positivePercent)
  {
    match CheckColumns(columns)
    case Missing(name) => MissingColumn(name)
    case AllPresent =>
      match Summarize(rows)
      case None => NoRows
      case Some(stats) =>
        var filtered := Filter(rows, c);
        FilterIsSubsequence(rows, c);
        assert forall row :: row in rows && Keeps(c, row) ==> row in filtered by {
          forall row | row in rows && Keeps(c, row) ensures row in filtered {
            FilterMembership(rows, c, row);
          }
        }
        assert forall row :: multiset(filtered)[row] == if Keeps(c, row) then multiset(rows)[row] else 0 by {
          forall row ensures multiset(filtered)[row] == if Keeps(c, row) then multiset(rows)[row] else 0 {
            FilterOccurrences(rows, c, row);
          }
        }
        Shown(View(stats, filtered, PositiveText(filtered), NegativeText(filtered),
                   Classify(stats.positivePercent)))
  }

  /** A missing column stops the run before anything depends on the rows or the filter. */
  lemma MissingColumnStopsRun(columns: seq<string>, rows: seq<Row>, c: Criteria, rows': seq<Row>, c': Criteria)
    requires CheckColumns(columns).Missing?
    ensures Run(columns, rows, c) == Run(columns, rows', c')
  {
  }

  /** The KPI block and the insight describe the whole upload, whatever the filter. */
  lemma StatsIgnoreFilter(columns: seq<string>, rows: seq<Row>, c: Criteria, c': Criteria)
    requires Run(columns, rows, c).Shown?
    ensures Run(columns, rows, c').Shown?
    ensures Run(columns, rows, c').view.stats == Run(columns, rows, c).view.stats
    ensures Run(columns, rows, c').view.insight == Run(columns, rows, c).view.insight
  {
  }

  /** With the widgets at their defaults, the view shows every row. */
  lemma DefaultViewShowsAllRows(columns: seq<string>, rows: seq<Row>)
    requires CheckColumns(columns) == AllPresent && rows != []
    ensures Run(columns, rows, DefaultCriteria(rows).value).Shown?
    ensures Run(columns, rows, DefaultCriteria(rows).value).view.filtered == rows
  {
    DefaultFilterIsIdentity(rows);
  }

  /**
   * Each word-cloud text is drawn from exactly the rows with its label that
   * pass the filter, in row order, and holds no punctuation or upper-case letter.
   */
  lemma TextsFromFilteredMatches(columns: seq<string>, rows: seq<Row>, c: Criteria)
    requires Run(columns, rows, c).Shown?
    ensures Run(columns, rows, c).view.positiveText ==
      Text.Join(CleanedReviews(Filter(MatchingRows(rows, PositiveLabel), c)), " ")
    ensures Run(columns, rows, c).view.negativeText ==
      Text.Join(CleanedReviews(Filter(MatchingRows(rows, NegativeLabel), c)), " ")
    ensures Text.IsClean(Run(columns, rows, c).view.positiveText)
    ensures Text.IsClean(Run(columns, rows, c).view.negativeText)
  {
    MatchingCommutesWithFilter(rows, PositiveLabel, c);
    MatchingCommutesWithFilter(rows, NegativeLabel, c);
    TextIsClean(Filter(rows, c), PositiveLabel);
    TextIsClean(Filter(rows, c), NegativeLabel);
  }

  /** A three-row upload: two positive reviews and one negative one. */
  const ExampleRows: seq<Row> := [
    Row("POSITIVE", 0.9, "Great Product!"),
    Row("NEGATIVE", 0.4, "Bad service."),
    Row("POSITIVE", 0.8, "Loved it")]

  /** The sidebar narrowed to the positive label over the full [0, 1] range. */
  const ExampleCriteria: Criteria := Criteria({"POSITIVE"}, 0.0, 1.0)

  lemma ExampleCounts()
    ensures CountLabel(ExampleRows, PositiveLabel) == 2
    ensures CountLabel(ExampleRows, NegativeLabel) == 1
  {
    var r0, r1, r2 := ExampleRows[0], ExampleRows[1], ExampleRows[2];
    assert Text.Upper("POSITIVE") == "POSITIVE";
    assert Text.Upper("NEGATIVE") == "NEGATIVE";
    LabelsExclusive(r0);
    LabelsExclusive(r1);
    LabelsExclusive(r2);
    assert ExampleRows[1..] == [r1, r2] && [r1, r2][1..] == [r2] && [r2][1..] == [];
    assert CountLabel([r2], PositiveLabel) == 1 && CountLabel([r2], NegativeLabel) == 0;
    assert CountLabel([r1, r2], PositiveLabel) == 1 && CountLabel([r1, r2], NegativeLabel) == 1;
  }

  lemma ExampleFilter()
    ensures Filter(ExampleRows, ExampleCriteria) == [ExampleRows[0], ExampleRows[2]]
  {
    var r0, r1, r2 := ExampleRows[0], ExampleRows[1], ExampleRows[2];
    var c := ExampleCriteria;
    assert "NEGATIVE"[0] != "POSITIVE"[0];
    assert Keeps(c, r0) && !Keeps(c, r1) && Keeps(c, r2);
    assert ExampleRows[1..] == [r1, r2] && [r1, r2][1..] == [r2] && [r2][1..] == [];
    assert Filter([r2], c) == [r2];
    assert Filter([r1, r2], c) == [r2];
  }

  lemma ExampleMatching()
    ensures MatchingRows([ExampleRows[0], ExampleRows[2]], PositiveLabel) == [ExampleRows[0], ExampleRows[2]]
    ensures MatchingRows([ExampleRows[0], ExampleRows[2]], NegativeLabel) == []
  {
    var r0, r2 := ExampleRows[0], ExampleRows[2];
    assert Text.Upper("POSITIVE") == "POSITIVE";
    LabelsExclusive(r0);
    LabelsExclusive(r2);
    assert [r0, r2][1..] == [r2] && [r2][1..] == [];
    assert MatchingRows([r2], PositiveLabel) == [r2] && MatchingRows([r2], NegativeLabel) == [];
  }

  lemma ExampleJoin()
    ensures Text.Join(CleanedReviews([ExampleRows[0], ExampleRows[2]]), " ") == "great product" + " " + "loved it"
  {
    Text.CleanGreatProduct(ExampleRows[0].review);
    Text.CleanLovedIt(ExampleRows[2].review);
    var parts := CleanedReviews([ExampleRows[0], ExampleRows[2]]);
    assert |parts| == 2 && parts[0] == "great product" && parts[1] == "loved it";
    assert Text.Join(parts[1..], " ") == parts[1];
  }

  /** The KPI block of the example: 3 rows, shares 200/3 and 100/3, mean confidence 70 %. */
  lemma ExampleSummary()
    ensures var s := Summarize(ExampleRows).value;
      && s.total == 3
      && s.positivePercent * 3.0 == 200.0
      && s.negativePercent * 3.0 == 100.0
      && s.averageConfidencePercent == 70.0
  {
    ExampleCounts();
    var r0, r1, r2 := ExampleRows[0], ExampleRows[1], ExampleRows[2];
    assert ExampleRows[1..] == [r1, r2] && [r1, r2][1..] == [r2] && [r2][1..] == [];
    assert ConfidenceSum(ExampleRows) == 2.1;
  }

  /**
   * A three-row example: two thirds positive gives "moderately positive",
   * two rows pass the filter, and the positive text is "great product loved it".
   */
  lemma ThreeRowExample()
    ensures var p := Run(RequiredColumns, ExampleRows, ExampleCriteria);
      && p.Shown?
      && p.view.stats.total == 3
      && p.view.stats.positive == 2 && p.view.stats.negative == 1
      && p.view.stats.positivePercent * 3.0 == 200.0
      && p.view.stats.negativePercent * 3.0 == 100.0
      && p.view.stats.averageConfidencePercent == 70.0
      && |p.view.filtered| == 2
      && p.view.insight == ModeratelyPositive
      && p.view.positiveText == "great product" + " " + "loved it"
      && p.view.negativeText == ""
  {
    ExampleCounts();
    ExampleSummary();
    ExampleFilter();
    ExampleMatching();
    ExampleJoin();
    ClassifyFromCounts(2, 3);
  }
}
