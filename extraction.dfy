/** The word-cloud inputs: cleaned review text of the positive or negative rows. */
module Extraction {
  import Text
  import opened Dataset
  import opened Summary
  import opened Filtering

  /** `rows[rows['sentiment'].str.upper() == target]`. */
  function MatchingRows(rows: seq<Row>, target: string): (m: seq<Row>)
    ensures forall i :: 0 <= i < |m| ==> HasLabel(m[i], target)
  {
    if rows == [] then []
    else (if HasLabel(rows[0], target) then [rows[0]] else []) + MatchingRows(rows[1..], target)
  }

  /** `['review'].apply(clean_text)`. */
  function CleanedReviews(rows: seq<Row>): (texts: seq<string>)
    ensures |texts| == |rows|
    ensures forall i :: 0 <= i < |rows| ==> texts[i] == Text.CleanText(rows[i].review)
    ensures forall i :: 0 <= i < |texts| ==> Text.IsClean(texts[i])
  {
    assert forall i :: 0 <= i < |rows| ==> Text.IsClean(Text.CleanText(rows[i].review)) by {
      forall i | 0 <= i < |rows| ensures Text.IsClean(Text.CleanText(rows[i].review)) {
        Text.CleanTextIsClean(rows[i].review);
      }
    }
    seq(|rows|, i requires 0 <= i < |rows| => Text.CleanText(rows[i].review))
  }

  /** `" ".join(...)` of the cleaned reviews of the rows labelled `target`. */
  function SentimentText(rows: seq<Row>, target: string): string
  {
    Text.Join(CleanedReviews(MatchingRows(rows, target)), " ")
  }

  /** `pos_text`, computed from the filtered view. */
  function PositiveText(filtered: seq<Row>): string
  {
    SentimentText(filtered, PositiveLabel)
  }

  /** `neg_text`, computed from the filtered view. */
  function NegativeText(filtered: seq<Row>): string
  {
    SentimentText(filtered, NegativeLabel)
  }

  /** The rows the text is drawn from are exactly those the KPI count counts. */
  lemma {:induction false} MatchingRowsCount(rows: seq<Row>, target: string)
    ensures |MatchingRows(rows, target)| == CountLabel(rows, target)
  {
    if rows != [] {
      MatchingRowsCount(rows[1..], target);
    }
  }

  /** The matching rows keep their order and every occurrence of a matching row. */
  lemma {:induction false} MatchingRowsOccurrences(rows: seq<Row>, target: string, row: Row)
    ensures multiset(MatchingRows(rows, target))[row] ==
      if HasLabel(row, target) then multiset(rows)[row] else 0
    ensures IsSubsequence(MatchingRows(rows, target), rows)
  {
    if rows != [] {
      MatchingRowsOccurrences(rows[1..], target, row);
      assert rows == [rows[0]] + rows[1..];
      assert multiset(rows) == multiset([rows[0]]) + multiset(rows[1..]);
      if HasLabel(rows[0], target) {
        assert MatchingRows(rows, target)[1..] == MatchingRows(rows[1..], target);
      } else {
        assert MatchingRows(rows, target) == MatchingRows(rows[1..], target);
      }
    }
  }

  /** Selecting by the label and filtering by the sidebar criteria commute. */
  lemma {:induction false} MatchingCommutesWithFilter(rows: seq<Row>, target: string, c: Criteria)
    ensures MatchingRows(Filter(rows, c), target) == Filter(MatchingRows(rows, target), c)
  {
    if rows != [] {
      MatchingCommutesWithFilter(rows[1..], target, c);
      var head := if Keeps(c, rows[0]) then [rows[0]] else [];
      MatchingRowsAppend(head, Filter(rows[1..], c), target);
      var mhead := if HasLabel(rows[0], target) then [rows[0]] else [];
      FilterAppend(mhead, MatchingRows(rows[1..], target), c);
    }
  }

  lemma {:induction false} MatchingRowsAppend(a: seq<Row>, b: seq<Row>, target: string)
    ensures MatchingRows(a + b, target) == MatchingRows(a, target) + MatchingRows(b, target)
  {
    if a == [] {
      assert a + b == b;
    } else {
      assert (a + b)[1..] == a[1..] + b;
      MatchingRowsAppend(a[1..], b, target);
    }
  }

  /** Selecting by the label again changes nothing. */
  lemma {:induction false} MatchingRowsAllMatch(rows: seq<Row>, target: string)
    requires forall i :: 0 <= i < |rows| ==> HasLabel(rows[i], target)
    ensures MatchingRows(rows, target) == rows
  {
    if rows != [] {
      assert HasLabel(rows[0], target);
      MatchingRowsAllMatch(rows[1..], target);
    }
  }

  /** Selecting by the same label twice is the same as selecting once. */
  lemma MatchingRowsIdempotent(rows: seq<Row>, target: string)
    ensures MatchingRows(MatchingRows(rows, target), target) == MatchingRows(rows, target)
  {
    MatchingRowsAllMatch(MatchingRows(rows, target), target);
  }

  /** With no matching row the text is empty (and no error is raised). */
  lemma NoMatchGivesEmptyText(rows: seq<Row>, target: string)
    requires CountLabel(rows, target) == 0
    ensures SentimentText(rows, target) == ""
  {
    MatchingRowsCount(rows, target);
  }

  /**
   * For k >= 1 matching rows, the text is as long as the cleaned reviews
   * together plus the k - 1 separating spaces.
   */
  lemma TextLength(rows: seq<Row>, target: string)
    requires CountLabel(rows, target) >= 1
    ensures |SentimentText(rows, target)| ==
      Text.TotalLength(CleanedReviews(MatchingRows(rows, target))) + CountLabel(rows, target) - 1
  {
    MatchingRowsCount(rows, target);
    Text.JoinLength(CleanedReviews(MatchingRows(rows, target)), " ");
  }

  /**
   * The word-cloud test `len(text) > 0` holds exactly when at least two rows
   * match, or some matching row has a non-empty cleaned review: a single
   * matching review made only of punctuation yields an empty text.
   */
  lemma TextPresent(rows: seq<Row>, target: string)
    ensures |SentimentText(rows, target)| > 0 <==>
      CountLabel(rows, target) >= 2 || Text.TotalLength(CleanedReviews(MatchingRows(rows, target))) > 0
  {
    MatchingRowsCount(rows, target);
    if CountLabel(rows, target) >= 1 {
      TextLength(rows, target);
    }
  }

  /** A non-empty text means some row carries the label. */
  lemma TextPresentHasMatch(rows: seq<Row>, target: string)
    ensures |SentimentText(rows, target)| > 0 ==> exists i :: 0 <= i < |rows| && HasLabel(rows[i], target)
  {
    if |SentimentText(rows, target)| > 0 {
      MatchingRowsCount(rows, target);
      var m := MatchingRows(rows, target);
      MatchingRowsOccurrences(rows, target, m[0]);
      assert m[0] in multiset(rows);
    }
  }

  /** The text holds no punctuation and no upper-case ASCII letter. */
  lemma TextIsClean(rows: seq<Row>, target: string)
    ensures Text.IsClean(SentimentText(rows, target))
  {
    var parts := CleanedReviews(MatchingRows(rows, target));
    var t := SentimentText(rows, target);
    forall i | 0 <= i < |t| ensures !Text.IsPunctuation(t[i]) && !Text.IsUpperAscii(t[i]) {
      Text.JoinCharacters(parts, " ", i);
      if t[i] in " " {
        assert t[i] == ' ';
      } else {
        var k :| 0 <= k < |parts| && t[i] in parts[k];
        Text.CleanTextIsClean(MatchingRows(rows, target)[k].review);
        var j :| 0 <= j < |parts[k]| && parts[k][j] == t[i];
      }
    }
  }
}
