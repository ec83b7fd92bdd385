# Customer review sentiment dashboard — data pipeline model

The dashboard is a Streamlit script. It loads a table of reviews that were
labelled upstream (columns `sentiment`, `confidence`, `review`), shows summary
figures, lets the user filter the rows in a sidebar, builds a word cloud from
the positive and from the negative reviews, and prints one business insight.
This project models the data logic of that script as pure Dafny functions over
a sequence of rows, and proves what the script promises about it:

- **Column check**: the three required columns are looked for in a fixed
  order, and the run stops at the first one that is missing.
- **KPI block**: the number of rows, the share whose upper-cased label is
  `POSITIVE` and the share whose label is `NEGATIVE`, as percentages, and the
  mean confidence, also as a percentage.
- **Sidebar filter**: keep a row when its raw, case-sensitive sentiment is
  selected and its confidence is in the closed range `[low, high]`. The widgets
  start with every distinct sentiment selected and the slider spanning the
  observed minimum and maximum confidence.
- **Word-cloud text**: `clean_text` lower-cases a review and deletes every
  character of Python's `string.punctuation`. The positive (negative) text is
  the space-join, in row order, of the cleaned reviews of the filtered rows
  whose upper-cased label is `POSITIVE` (`NEGATIVE`). A cloud is drawn only when
  that text is non-empty.
- **Insight**: above 70 % positive is "very satisfied", above 50 % is
  "moderately positive", and anything else is "largely dissatisfied". The share
  used is the one for the whole upload, not for the filtered rows.

Modules, one per stage: `Text` (ASCII case mapping, punctuation, `CleanText`,
`Join`), `Dataset` (the row and the label test), `Columns`, `Summary`,
`Filtering`, `Extraction`, `Insight`, and `Dashboard`, which composes the
stages into one run of the script (`Run`). `Wrappers` holds `Option`.

Modelling choices:

- Confidence values are Dafny `real`s and all arithmetic is exact.
- Strings are ASCII. `Upper` and `Lower` change only `a`–`z` and `A`–`Z`.
- The source never guards against an empty table. It would then divide by a
  zero row count and take the minimum and maximum of an empty column. The
  model returns `None` from `Summarize` and from `DefaultCriteria`, and `Run`
  returns `NoRows`.
- The widget state (the selected sentiments and the slider ends) is a
  parameter of `Run`. Any value is accepted, including one the widgets could
  not produce. `DefaultCriteria` is the state the widgets start in.
- The upload's header is a sequence of column names, kept apart from the
  rows. Once the check passes, every row has the three fields.

## Model

| member | source | states |
|---|---|---|
| Columns.FirstMissing | review_dashboard.py:26-31 | the scan succeeds exactly when every required name is present; otherwise it reports a name that is missing and all names before it are present |
| Columns.CheckColumns | review_dashboard.py:26-31 | all present iff `sentiment`, `confidence` and `review` are all columns; reports `sentiment` iff it is absent, `confidence` iff `sentiment` is present and `confidence` absent, `review` iff the first two are present and it is absent |
| Dataset.LabelsExclusive | review_dashboard.py:35-36 | no row is counted both as POSITIVE and as NEGATIVE |
| Dataset.HasLabelIgnoresCase | review_dashboard.py:35-36 | the label test ignores ASCII case: a lower-cased sentiment gives the same answer |
| Dataset.HasLabel | review_dashboard.py:35-36 | the `str.upper() == label` test; `LabelsExclusive` and `HasLabelIgnoresCase` carry its properties |
| Summary.CountLabel | review_dashboard.py:35-36 | a label count never exceeds the number of rows |
| Summary.CountLabelAppend | review_dashboard.py:35-36 | counting over two concatenated tables adds the two counts |
| Summary.PositivePlusNegativeAtMostTotal | review_dashboard.py:34-36 | positive count plus negative count is at most the total |
| Summary.Percent | review_dashboard.py:37-39 | the percentage `p` of `part` over `total` satisfies `p * total == 100 * part` |
| Summary.PercentsOfDisjointParts | review_dashboard.py:37-38 | the percentages of two disjoint counts are non-negative and add up to at most 100 |
| Summary.ConfidenceSum | review_dashboard.py:39 | the sum behind `mean()`; `ConfidenceSumBounds` bounds it by the row count times any bounds of the confidences, and `Summarize` ties the average to it |
| Summary.Summarize | review_dashboard.py:34-39 | defined exactly when there is at least one row; then the total is the row count, the counts are the POSITIVE and NEGATIVE label counts, each share times the row count is 100 times its count, the average times the row count is 100 times the confidence sum, each share lies in [0, 100] and the two shares add up to at most 100 |
| Summary.MakeStats | review_dashboard.py:34-39 | from a row count and two disjoint label counts: each share times the row count is 100 times its count, the average likewise for the confidence sum, both shares lie in [0, 100] and add up to at most 100 |
| Summary.AverageWithinBounds | review_dashboard.py:39 | when every confidence lies in [lo, hi], the average confidence percentage lies in [100·lo, 100·hi] |
| Filtering.Filter | review_dashboard.py:61-64 | the view is no longer than the table and every kept row passes the mask |
| Filtering.Keeps | review_dashboard.py:61-64 | the boolean mask: raw sentiment selected and `low <= confidence <= high`; `FilterMembership` and `FilterOccurrences` tie the view to it |
| Filtering.FilterIsSubsequence | review_dashboard.py:61-64 | the filtered view is an order-preserving subsequence of the table |
| Filtering.FilterOccurrences | review_dashboard.py:61-64 | every occurrence of a row that passes the mask is kept, and no occurrence of any other row |
| Filtering.FilterMembership | review_dashboard.py:61-64 | a row is in the view iff it is in the table and its sentiment is selected and `low <= confidence <= high` |
| Filtering.FilterKeepsAll | review_dashboard.py:61-64 | when every row passes the mask, the view equals the table |
| Filtering.FilterIdempotent | review_dashboard.py:61-64 | filtering the view again with the same criteria returns it unchanged |
| Filtering.FilterNarrowing | review_dashboard.py:61-64 | filtering with wider criteria and then narrower ones equals filtering with the narrower ones alone |
| Filtering.FilterAppend | review_dashboard.py:61-64 | filtering two concatenated tables concatenates the two views |
| Filtering.Sentiments | review_dashboard.py:49-53 | the multiselect's options are exactly the sentiments that occur in the table |
| Filtering.MinConfidence | review_dashboard.py:56-58 | the slider's lower end is a confidence of some row and no row's confidence is smaller |
| Filtering.MaxConfidence | review_dashboard.py:57-58 | the slider's upper end is a confidence of some row and no row's confidence is larger |
| Filtering.DefaultCriteria | review_dashboard.py:49-58 | defaults exist exactly for a non-empty table; then every row passes them, every selected sentiment occurs in the table, and both slider ends are confidences that occur, with low <= high; together these make the selection exactly the occurring sentiments and the slider ends the observed minimum and maximum |
| Filtering.DefaultFilterIsIdentity | review_dashboard.py:49-64 | with the default criteria the filter returns the whole table |
| Text.Lower | review_dashboard.py:88 | lower-casing keeps the length, leaves no upper-case ASCII letter, leaves every other character unchanged, and maps each character through the ASCII lower-case map |
| Text.Upper | review_dashboard.py:35-36 | upper-casing keeps the length, leaves no lower-case ASCII letter, leaves every other character unchanged, and maps each character through the ASCII upper-case map |
| Text.PunctuationRanges | review_dashboard.py:89 | a character is in the 32-character `string.punctuation` constant iff it is in one of the four ASCII symbol ranges |
| Text.RemovePunctuationSound | review_dashboard.py:89 | deleting punctuation leaves no punctuation, adds no new character, and shortens by exactly the punctuation count |
| Text.RemovePunctuationOfClean | review_dashboard.py:89 | a string without punctuation is left unchanged |
| Text.RemovePunctuationAppend | review_dashboard.py:89 | deleting punctuation works piecewise on a concatenation |
| Text.RemovePunctuation | review_dashboard.py:89 | the `translate` that deletes `string.punctuation`; `RemovePunctuationSound`, `RemovePunctuationOfClean` and `RemovePunctuationAppend` carry its properties |
| Text.CleanTextIsClean | review_dashboard.py:87-90 | the cleaned text has no punctuation and no upper-case ASCII letter |
| Text.CleanTextLength | review_dashboard.py:87-90 | cleaning shortens the text by exactly its punctuation count, so never lengthens it |
| Text.LowerPreservesPunctuationCount | review_dashboard.py:88-89 | lower-casing does not change how many punctuation characters there are |
| Text.CleanTextOfClean | review_dashboard.py:87-90 | a text with no punctuation and no upper-case letter is its own cleaning |
| Text.CleanTextIdempotent | review_dashboard.py:87-90 | cleaning twice equals cleaning once |
| Text.CleanTextStepsCommute | review_dashboard.py:88-89 | deleting punctuation before or after lower-casing gives the same text |
| Text.CleanTextAppend | review_dashboard.py:87-90 | cleaning works piecewise on a concatenation |
| Text.CleanText | review_dashboard.py:87-90 | `clean_text`; `CleanTextIsClean`, `CleanTextLength`, `CleanTextOfClean`, `CleanTextIdempotent`, `CleanTextStepsCommute` and `CleanTextAppend` carry its properties |
| Text.LowerGreatProduct | review_dashboard.py:88 | "Great Product" lower-cases to "great product" |
| Text.CleanGreatProduct | review_dashboard.py:87-90 | "Great Product!" cleans to "great product" |
| Text.CleanLovedIt | review_dashboard.py:87-90 | "Loved it" cleans to "loved it" |
| Text.JoinLength | review_dashboard.py:92-95 | joining k >= 1 parts gives the parts' total length plus k - 1 separators |
| Text.JoinCharacters | review_dashboard.py:92-95 | every character of a join comes from a part or from the separator |
| Text.Join | review_dashboard.py:92-95 | `sep.join(parts)`; `JoinLength` and `JoinCharacters` carry its properties |
| Extraction.MatchingRows | review_dashboard.py:92-95 | every selected row has the requested upper-cased label |
| Extraction.CleanedReviews | review_dashboard.py:92-95 | one cleaned review per row, in row order, each with no punctuation and no upper-case ASCII letter |
| Extraction.SentimentText | review_dashboard.py:92-95 | the space-join of the cleaned reviews of the rows with the label; `NoMatchGivesEmptyText`, `TextLength`, `TextPresent`, `TextPresentHasMatch` and `TextIsClean` carry its properties |
| Extraction.PositiveText | review_dashboard.py:92-93 | `pos_text`: `SentimentText` of the view for POSITIVE; `Dashboard.TextsFromFilteredMatches` relates it to the whole table |
| Extraction.NegativeText | review_dashboard.py:94-95 | `neg_text`: `SentimentText` of the view for NEGATIVE; `Dashboard.TextsFromFilteredMatches` relates it to the whole table |
| Extraction.MatchingRowsCount | review_dashboard.py:35-36 | the rows the text is drawn from number exactly the KPI count for that label |
| Extraction.MatchingRowsOccurrences | review_dashboard.py:92-95 | label selection keeps every occurrence of a matching row and nothing else, in order |
| Extraction.MatchingRowsAllMatch | review_dashboard.py:92-95 | selecting by a label that every row already has returns the rows unchanged |
| Extraction.MatchingRowsIdempotent | review_dashboard.py:92-95 | selecting by the same label twice equals selecting once |
| Extraction.MatchingCommutesWithFilter | review_dashboard.py:61-64 | selecting by label and filtering by the sidebar commute |
| Extraction.NoMatchGivesEmptyText | review_dashboard.py:92-95 | with no matching row the text is the empty string |
| Extraction.TextLength | review_dashboard.py:92-95 | for k >= 1 matching rows the text is as long as the cleaned reviews plus k - 1 spaces |
| Extraction.TextPresent | review_dashboard.py:101 | `len(text) > 0` holds iff at least two rows match or the matching cleaned reviews are not all empty |
| Extraction.TextPresentHasMatch | review_dashboard.py:118 | a non-empty text implies some row has the label |
| Extraction.TextIsClean | review_dashboard.py:92-95 | the text has no punctuation and no upper-case ASCII letter |
| Insight.Classify | review_dashboard.py:135-142 | very satisfied iff > 70, moderately positive iff in (50, 70], largely dissatisfied iff <= 50 |
| Insight.ClassifyMonotone | review_dashboard.py:135-142 | a larger share never yields a less favourable message |
| Insight.ClassifyBoundaries | review_dashboard.py:135-142 | 71 is very satisfied, 70 moderately positive, and 50 and 0 largely dissatisfied |
| Insight.ClassifyFromCounts | review_dashboard.py:135-142 | in row counts: very satisfied iff 10·positive > 7·total, moderately positive iff 2·positive > total and 10·positive <= 7·total, otherwise dissatisfied |
| Dashboard.Run | review_dashboard.py:26-142 | stops at a missing column iff the column check fails, reporting the column that check reports; no rows exactly when the check passes on an empty table; otherwise the KPI block is `Summarize` of the whole table (so counts, shares tied to the counts, the mean confidence percentage, bounds); the view is an order-preserving subsequence of the table that holds every occurrence of each row passing the mask and no occurrence of any other row; the two texts are the positive and negative texts of the view; and the insight classifies the whole-table positive share |
| Dashboard.MissingColumnStopsRun | review_dashboard.py:27-31 | after a failed column check the outcome does not depend on the rows or the filter |
| Dashboard.StatsIgnoreFilter | review_dashboard.py:34-38 | the KPI block and the insight are the same for every filter |
| Dashboard.DefaultViewShowsAllRows | review_dashboard.py:49-64 | on a valid non-empty upload with the default widgets, the view is every row |
| Dashboard.TextsFromFilteredMatches | review_dashboard.py:92-95 | the positive (negative) text is the space-join of the cleaned reviews of the POSITIVE (NEGATIVE) rows that pass the filter, and both texts are clean |
| Dashboard.ExampleCounts | review_dashboard.py:34-36 | the three-row example has 2 positive rows and 1 negative row |
| Dashboard.ExampleSummary | review_dashboard.py:34-39 | the example's KPI block: 3 rows, positive share times 3 is 200, negative share times 3 is 100, average confidence 70 |
| Dashboard.ExampleFilter | review_dashboard.py:61-64 | selecting POSITIVE over [0, 1] keeps the first and third example rows |
| Dashboard.ExampleMatching | review_dashboard.py:92-95 | among those rows both are positive and none is negative |
| Dashboard.ExampleJoin | review_dashboard.py:92-93 | their cleaned reviews join to "great product loved it" |
| Dashboard.ThreeRowExample | review_dashboard.py:26-142 | the whole run on the example: 3 rows, 2 positive, 1 negative, shares 200/3 and 100/3, average confidence 70, 2 rows shown, moderately positive, positive text "great product loved it", negative text empty |

## Left out

- Page layout, the file uploader, table previews, metric widgets and the download button (review_dashboard.py:9-24, 41-45, 66-67, 144-154): these are UI and I/O. The widget state is a parameter of `Dashboard.Run`.
- CSV parsing with `pd.read_csv` and the UTF-8 CSV export (review_dashboard.py:21, 145): library behaviour outside the script.
- The count plot, the histogram and the word-cloud images with their stop words (review_dashboard.py:70-81, 102-112, 119-129): plotting libraries. The model stops at the text handed to the word cloud and at the `len(...) > 0` test that decides whether one is drawn.
- Floating point: confidences, shares and the mean are exact reals, so float rounding and the `:.1f` display formatting (review_dashboard.py:43-45) are not modelled. NaN confidences, which `between` never keeps, do not exist in the model.
- Unicode: `str.lower`, `str.upper` and the punctuation test act on ASCII only. Non-ASCII characters pass through unchanged.
- Non-string cells: every review and sentiment is a string in the model. The `str(text)` coercion that `clean_text` applies to a non-string review (review_dashboard.py:88) is not modelled. Neither is a non-string sentiment: `.str.upper()` turns one into NaN (review_dashboard.py:35-36, 92-95), so the source never counts it as POSITIVE or NEGATIVE and never puts it into a text.
- `st.stop` as a control mechanism is modelled by the `MissingColumn` outcome. Streamlit's rerun-on-interaction cycle is not modelled; `Run` is one pass.
- The order of `df['sentiment'].unique()` matters only for how the multiselect displays it. The model keeps the options as a set.
