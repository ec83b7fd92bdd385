/** The sidebar filter: a sentiment selection and an inclusive confidence range. */
module Filtering {
  import opened Wrappers
  import opened Dataset

  /**
   * What the sidebar widgets hold: the selected raw sentiment values and the
   * two ends of the confidence slider.
   */
  datatype Criteria = Criteria(selected: set<string>, low: real, high: real)

  /**
   * The boolean mask of the filter: the raw (case-sensitive) sentiment is
   * selected and `low <= confidence <= high`, as pandas `between` is inclusive.
   */
  predicate Keeps(c: Criteria, row: Row)
  {
    row.sentiment in c.selected && c.low <= row.confidence <= c.high
  }

  /** `df[mask]`: the rows the mask keeps, in their original order. */
  function Filter(rows: seq<Row>, c: Criteria): (kept: seq<Row>)
    ensures |kept| <= |rows|
    ensures forall i :: 0 <= i < |kept| ==> Keeps(c, kept[i])
  {
    if rows == [] then []
    else (if Keeps(c, rows[0]) then [rows[0]] else []) + Filter(rows[1..], c)
  }

  /** `xs` is `ys` with some elements deleted and the rest in order. */
  predicate IsSubsequence<T(==)>(xs: seq<T>, ys: seq<T>)
    decreases |ys|
  {
    if xs == [] then true
    else if ys == [] then false
    else (xs[0] == ys[0] && IsSubsequence(xs[1..], ys[1..])) || IsSubsequence(xs, ys[1..])
  }

  /** The filtered view is an order-preserving subsequence of the dataset. */
  lemma {:induction false} FilterIsSubsequence(rows: seq<Row>, c: Criteria)
    ensures IsSubsequence(Filter(rows, c), rows)
  {
    if rows != [] {
      FilterIsSubsequence(rows[1..], c);
      if Keeps(c, rows[0]) {
        assert Filter(rows, c) == [rows[0]] + Filter(rows[1..], c);
        assert Filter(rows, c)[1..] == Filter(rows[1..], c);
      } else {
        assert Filter(rows, c) == Filter(rows[1..], c);
      }
    }
  }

  /**
   * The filter keeps every occurrence of a row that meets the criteria and
   * drops every occurrence of one that does not.
   */
  lemma {:induction false} FilterOccurrences(rows: seq<Row>, c: Criteria, row: Row)
    ensures multiset(Filter(rows, c))[row] == if Keeps(c, row) then multiset(rows)[row] else 0
  {
    if rows != [] {
      FilterOccurrences(rows[1..], c, row);
      assert rows == [rows[0]] + rows[1..];
      assert multiset(rows) == multiset([rows[0]]) + multiset(rows[1..]);
    }
  }

  /** Soundness and completeness of the filter as membership. */
  lemma FilterMembership(rows: seq<Row>, c: Criteria, row: Row)
    ensures row in Filter(rows, c) <==> row in rows && Keeps(c, row)
  {
    FilterOccurrences(rows, c, row);
  }

  /** When every row meets the criteria, the filter returns its input unchanged. */
  lemma {:induction false} FilterKeepsAll(rows: seq<Row>, c: Criteria)
    requires forall i :: 0 <= i < |rows| ==> Keeps(c, rows[i])
    ensures Filter(rows, c) == rows
  {
    if rows != [] {
      assert Keeps(c, rows[0]);
      FilterKeepsAll(rows[1..], c);
    }
  }

  /** Filtering an already filtered view with the same criteria changes nothing. */
  lemma FilterIdempotent(rows: seq<Row>, c: Criteria)
    ensures Filter(Filter(rows, c), c) == Filter(rows, c)
  {
    FilterKeepsAll(Filter(rows, c), c);
  }

  /** `narrow` admits no row that `wide` rejects. */
  predicate Narrows(narrow: Criteria, wide: Criteria)
  {
    narrow.selected <= wide.selected && wide.low <= narrow.low && narrow.high <= wide.high
  }

  /** Tightening the sidebar after filtering equals filtering with the tighter criteria. */
  lemma {:induction false} FilterNarrowing(rows: seq<Row>, narrow: Criteria, wide: Criteria)
    requires Narrows(narrow, wide)
    ensures Filter(Filter(rows, wide), narrow) == Filter(rows, narrow)
  {
    if rows != [] {
      FilterNarrowing(rows[1..], narrow, wide);
      var head := if Keeps(wide, rows[0]) then [rows[0]] else [];
      FilterAppend(head, Filter(rows[1..], wide), narrow);
    }
  }

  /** Filtering distributes over concatenation. */
  lemma {:induction false} FilterAppend(a: seq<Row>, b: seq<Row>, c: Criteria)
    ensures Filter(a + b, c) == Filter(a, c) + Filter(b, c)
  {
    if a == [] {
      assert a + b == b;
    } else {
      assert (a + b)[1..] == a[1..] + b;
      FilterAppend(a[1..], b, c);
    }
  }

  /** `df['sentiment'].unique()`, as the set the multiselect starts with. */
  function Sentiments(rows: seq<Row>): (s: set<string>)
    ensures forall i :: 0 <= i < |rows| ==> rows[i].sentiment in s
    ensures forall x :: x in s ==> exists i :: 0 <= i < |rows| && rows[i].sentiment == x
  {
    set i | 0 <= i < |rows| :: rows[i].sentiment
  }

  /** `df['confidence'].min()`. */
  function MinConfidence(rows: seq<Row>): (m: real)
    requires |rows| > 0
    ensures forall i :: 0 <= i < |rows| ==> m <= rows[i].confidence
    ensures exists i :: 0 <= i < |rows| && m == rows[i].confidence
  {
    if |rows| == 1 then rows[0].confidence
    else
      var rest := MinConfidence(rows[1..]);
      assert forall i :: 1 <= i < |rows| ==> rest <= rows[i].confidence by {
        forall i | 1 <= i < |rows| ensures rest <= rows[i].confidence {
          assert rows[i] == rows[1..][i - 1];
        }
      }
      if rows[0].confidence <= rest then rows[0].confidence else rest
  }

  /** `df['confidence'].max()`. */
  function MaxConfidence(rows: seq<Row>): (m: real)
    requires |rows| > 0
    ensures forall i :: 0 <= i < |rows| ==> rows[i].confidence <= m
    ensures exists i :: 0 <= i < |rows| && m == rows[i].confidence
  {
    if |rows| == 1 then rows[0].confidence
    else
      var rest := MaxConfidence(rows[1..]);
      assert forall i :: 1 <= i < |rows| ==> rows[i].confidence <= rest by {
        forall i | 1 <= i < |rows| ensures rows[i].confidence <= rest {
          assert rows[i] == rows[1..][i - 1];
        }
      }
      if rows[0].confidence >= rest then rows[0].confidence else rest
  }

  /**
   * The initial widget state: every distinct sentiment selected and the slider
   * spanning the observed confidence range. An empty dataset has no range.
   */
  function DefaultCriteria(rows: seq<Row>): (c: Option<Criteria>)
    ensures c.None? <==> rows == []
    ensures c.Some? ==> c.value.low <= c.value.high
    ensures c.Some? ==> forall i :: 0 <= i < |rows| ==> Keeps(c.value, rows[i])
    ensures c.Some? ==> forall x :: x in c.value.selected ==> exists i :: 0 <= i < |rows| && rows[i].sentiment == x
    ensures c.Some? ==> exists i :: 0 <= i < |rows| && rows[i].confidence == c.value.low
    ensures c.Some? ==> exists i :: 0 <= i < |rows| && rows[i].confidence == c.value.high
  {
    if rows == [] then None
    else Some(Criteria(Sentiments(rows), MinConfidence(rows), MaxConfidence(rows)))
  }

  /** With the default criteria the filtered view is the whole dataset. */
  lemma DefaultFilterIsIdentity(rows: seq<Row>)
    requires rows != []
    ensures Filter(rows, DefaultCriteria(rows).value) == rows
  {
    FilterKeepsAll(rows, DefaultCriteria(rows).value);
  }
}
