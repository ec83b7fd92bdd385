/** The required-column check run before anything else. */
module Columns {

  /** The columns the dashboard needs, in the order they are checked. */
  const RequiredColumns: seq<string> := ["sentiment", "confidence", "review"]

  datatype ColumnCheck = AllPresent | Missing(column: string)

  /** `required[i]` is absent and every name before it is present. */
  predicate IsFirstMissing(required: seq<string>, columns: seq<string>, i: int)
  {
    0 <= i < |required| && required[i] !in columns
    && forall j :: 0 <= j < i ==> required[j] in columns
  }

  /**
   * Scans `required` in order and reports the first name not among `columns`.
   */
  function FirstMissing(required: seq<string>, columns: seq<string>): (r: ColumnCheck)
    ensures r.AllPresent? <==> forall i :: 0 <= i < |required| ==> required[i] in columns
    ensures r.Missing? ==> exists i :: IsFirstMissing(required, columns, i) && required[i] == r.column
  {
    if required == [] then AllPresent
    else if required[0] !in columns then
      assert IsFirstMissing(required, columns, 0);
      Missing(required[0])
    else
      var rest := FirstMissing(required[1..], columns);
      assert rest.Missing? ==> exists i :: IsFirstMissing(required, columns, i) && required[i] == rest.column by {
        if rest.Missing? {
          var i :| IsFirstMissing(required[1..], columns, i) && required[1..][i] == rest.column;
          forall j | 0 <= j < i + 1 ensures required[j] in columns {
            if j > 0 { assert required[j] == required[1..][j - 1]; }
          }
          assert IsFirstMissing(required, columns, i + 1);
        }
      }
      rest
  }

  /**
   * The dashboard's column check: succeeds exactly when all three columns are
   * present, and otherwise names the first missing one.
   */
  function CheckColumns(columns: seq<string>): (r: ColumnCheck)
    ensures r == AllPresent <==>
      "sentiment" in columns && "confidence" in columns && "review" in columns
    ensures r == Missing("sentiment") <==> "sentiment" !in columns
    ensures r == Missing("confidence") <==> "sentiment" in columns && "confidence" !in columns
    ensures r == Missing("review") <==>
      "sentiment" in columns && "confidence" in columns && "review" !in columns
    ensures r.Missing? ==> r.column in RequiredColumns
  {
    var last: seq<string> := ["review"];
    var tail: seq<string> := ["confidence", "review"];
    assert last[1..] == [] && tail[1..] == last && RequiredColumns[1..] == tail;
    assert FirstMissing(last, columns) == if "review" !in columns then Missing("review") else AllPresent;
    assert FirstMissing(tail, columns) ==
      if "confidence" !in columns then Missing("confidence") else FirstMissing(last, columns);
    assert FirstMissing(RequiredColumns, columns) ==
      if "sentiment" !in columns then Missing("sentiment") else FirstMissing(tail, columns);
    FirstMissing(RequiredColumns, columns)
  }
}
