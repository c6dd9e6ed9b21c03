# Trust Sankey pipeline, in Dafny

This project models the data half of the survey Sankey script
`scripts/sankey.py`. The script compares answers to a "trust in AI" Likert
question before and after an intervention. It reads one column from each of
two spreadsheets and cleans each column independently. It then pairs the
cleaned answers, counts the pairs into a square transition matrix, and walks
that matrix out into the `src`/`tgt`/`val` link lists and node labels of a
Sankey diagram.

The script has three Sankey functions. `make_trust_sankey` uses the 5-point
scale `LIKERT5`. `make_trust_sankey_3bin` first collapses the answers to
`THREE_BINS`. `make_trust_sankey_3bin_ordered` computes the same matrix,
labels and links as the 3-bin function. The model has one pipeline,
parametrised by a `Variant`.

The modules follow the stages of the script:

- `counting.dfy` (`Counting`) holds the counting helpers that the stages
  share: occurrences, sums and tallies over a list of labels.
- `likert.dfy` (`Likert`) holds the scales and Python's `str.strip()`. It
  models a pandas Series as a list of (index label, string value) entries.
  It defines `_clean_likert` (`CleanLikert`, an instance of `CleanToScale`)
  and `_to_three_bins` (`ToThreeBins`).
- `transition.dfy` (`Transition`) models `reset_index(drop=True)` and the
  two-column DataFrame with `dropna`, which pairs by index label.
  `Crosstab` is `pd.crosstab`, a map of observed counts. `Reindex` is
  `.reindex(index=scale, columns=scale, fill_value=0)`.
- `sankey.dfy` (`Sankey`) holds the link loops as an imperative method with
  loop invariants. The method is proved against a back-recursive
  specification (`Links`) that appends links in the loops' order. The module
  also holds the node labels, `iloc` column selection (a negative position
  counts from the end, a position out of range is an error) and the whole
  pipeline (`MakeTrustSankey`).

Some modelling decisions:

- **Cells.** A cell is the string that `astype(str)` makes of it. A missing
  cell is therefore the string "nan", an ordinary non-member of every scale.
- **Whitespace.** `IsSpace` is Python's `str.isspace()` on one code point.
  `Strip` removes the leading and trailing runs of such characters.
- **Pairing is positional, not by respondent.** Each side is cleaned first
  and its index is reset. A row dropped on one side therefore shifts every
  later pair, instead of removing just that respondent's pair.
  `PairingIsPositional` proves that the pairing is a zip cut to the shorter
  cleaned column. `PairingIgnoresRespondent` gives a concrete
  counter-example to pairing by respondent.
- **The "ordered" variant.** `THREE_BINS_ORDERED` is declared next to
  `make_trust_sankey_3bin_ordered` (scripts/sankey.py:164), but the
  function indexes its matrix, labels and loops by `THREE_BINS`. `ScaleOf` reflects this, and `OrderedVariantIsThreeBin`
  states the consequence.
- **The 5-point target offset.** The 5-point loop writes the target offset
  as the constant 5. That is `|Likert5|`, so every variant uses `|scale|`.
- **Cleaning on the example answers.** On the answers "Agree",
  " disagree", "Strongly Agree" and "xyz", only "Agree" survives
  (`CleanLikertExample`).

## Model

| member | source | states |
|---|---|---|
| `Likert.ScalesAreDistinct` | scripts/sankey.py:8-10 | No label is repeated in `LIKERT5`, `THREE_BINS` or `THREE_BINS_ORDERED` (the last is defined at line 164). |
| `Likert.IsSpace` | scripts/sankey.py:13 | The code points that `str.isspace()` accepts, for the `str.strip()` here and at line 27. `Likert.Strip` and `Likert.StripPadded` state that `Strip` removes exactly these characters at both ends. |
| `Likert.Strip` | scripts/sankey.py:13 | The result of `str.strip()` has no whitespace at either end. It is empty exactly when the input is all whitespace. It is no longer than the input. |
| `Likert.StripPadded` | scripts/sankey.py:27 | Stripping whitespace around a trimmed string gives back exactly that string. |
| `Likert.StripTrimmed` | scripts/sankey.py:27 | A string with no whitespace at either end strips to itself. |
| `Likert.StripIdempotent` | scripts/sankey.py:27 | Stripping twice is the same as stripping once. |
| `Likert.StripLeadingSpace` | scripts/sankey.py:27 | One leading whitespace character before a trimmed string is removed, and nothing else is. |
| `Likert.StripExample` | scripts/sankey.py:27 | " disagree" strips to "disagree". |
| `Likert.StripAll` | scripts/sankey.py:13 | `.str.strip()` on every cell, keeping positions and index labels. `Likert.StripAllTrimmed` states that it changes nothing on trimmed cells, and `Likert.Strip` gives each cell. |
| `Likert.StripAllTrimmed` | scripts/sankey.py:27 | Stripping a series whose cells are already trimmed changes nothing. |
| `Likert.KeepIn` | scripts/sankey.py:28-29 | `where(isin(scale)).dropna()` returns at most as many entries as it is given, and every value it keeps is a label of the scale. |
| `Likert.KeepInIsSubsequence` | scripts/sankey.py:28-29 | The kept entries are a subsequence of the input, in their original order, with their original index labels. |
| `Likert.KeepInCounts` | scripts/sankey.py:28-29 | Every occurrence of a scale label is kept, and no other value survives. |
| `Likert.KeepInOnScale` | scripts/sankey.py:28-29 | Filtering a series whose values already lie on the scale changes nothing. |
| `Likert.CleanToScale` | scripts/sankey.py:26-29 | `_clean_likert` with its scale as a parameter: strip every cell, then keep the exact matches. Its contract is `Likert.CleanToScaleSelects`. |
| `Likert.CleanLikert` | scripts/sankey.py:26-29 | `_clean_likert` itself, on `LIKERT5`. Its contracts are `Likert.CleanToScaleSelects` and `Likert.CleanLikertIdempotent`. |
| `Likert.CleanToScaleSelects` | scripts/sankey.py:26-29 | `_clean_likert` returns only labels, and its result is a subsequence of the stripped input. Each label keeps exactly its number of occurrences among the stripped cells, and every other value occurs 0 times. The match is exact: nothing is corrected. |
| `Likert.CleanLikertIdempotent` | scripts/sankey.py:26-29 | Cleaning an already cleaned series changes nothing. |
| `Likert.StrictMatchExample` | scripts/sankey.py:28 | Among stripped cells, "disagree", "Strongly Agree" and "xyz" are dropped and "Agree" is kept. |
| `Likert.StripAllExample` | scripts/sankey.py:27 | On the answers "Agree", " disagree", "Strongly Agree" and "xyz", `.str.strip()` changes only " disagree", to "disagree". |
| `Likert.CleanLikertExample` | scripts/sankey.py:26-29 | `_clean_likert` on the answers "Agree", " disagree", "Strongly Agree" and "xyz" returns only the entry "Agree", with its index label 0. |
| `Likert.Replace` | scripts/sankey.py:15-21 | The merge dictionary maps "Strongly disagree" and "Disagree" to "Disagree", "Neutral" to "Neutral", and "Agree" and "Strongly agree" to "Agree". These are stated in both directions. A value lands in `THREE_BINS` exactly when it is a `LIKERT5` label. |
| `Likert.ReplaceAll` | scripts/sankey.py:15-21 | `replace` keeps every entry's position and index label and renames its value. |
| `Likert.ToThreeBins` | scripts/sankey.py:12-24 | Strip, merge with the dictionary, then keep the `THREE_BINS` values. Its contracts are `Likert.ToThreeBinsIsCollapsedClean` and `Likert.ToThreeBinsIdempotent`. |
| `Likert.ToThreeBinsIsCollapsedClean` | scripts/sankey.py:12-24 | `_to_three_bins` is `_clean_likert` followed by the merge, so input order is kept. Every value it returns is in `THREE_BINS`. |
| `Likert.ReplaceAllOnBins` | scripts/sankey.py:15-21 | The merge fixes every `THREE_BINS` label. |
| `Likert.ToThreeBinsIdempotent` | scripts/sankey.py:12-24 | Applying `_to_three_bins` twice equals applying it once. |
| `Transition.Indexed` | scripts/sankey.py:38 | A column read with a default RangeIndex labels its k-th cell `k`. |
| `Transition.Zip` | scripts/sankey.py:40 | The reference pairing is position by position, with length equal to the shorter input. |
| `Transition.PairingIsPositional` | scripts/sankey.py:38-40 | After `reset_index` on both cleaned series, the DataFrame plus `dropna` equals the zip of the two value lists. It yields `min(\|before\|, \|after\|)` pairs, and pair k is (before[k], after[k]). The same lines recur at 102-104 and 172-174. |
| `Transition.ResetIndex` | scripts/sankey.py:38-39 | `reset_index(drop=True)` keeps the values and relabels them 0, 1, ... Its contract is carried by `Transition.Indexed` and `Transition.PairingIsPositional`. |
| `Transition.AlignDropNa` | scripts/sankey.py:40 | The two-column DataFrame with `dropna` keeps the "before" labels that the "after" column also has, paired with that column's value. `Transition.PairingIgnoresRespondent` shows it pairing by label. `Transition.PairingIsPositional` gives its result after `reset_index`. |
| `Transition.PairResponses` | scripts/sankey.py:38-40 | Reset both cleaned series, then align and drop. Its contract is `Transition.PairingIsPositional`: a zip of the cleaned values cut to the shorter one. |
| `Transition.PairingIgnoresRespondent` | scripts/sankey.py:38-40 | When an earlier "before" cell was dropped, the reset pairing matches it with a different respondent's "after" cell than aligning on the original labels would. |
| `Transition.Crosstab` | scripts/sankey.py:41 | `pd.crosstab` as a map from each observed combination to its count. Its contract is `Transition.CrosstabCounts`. |
| `Transition.CrosstabCounts` | scripts/sankey.py:41 | The crosstab has an entry for exactly the combinations that occur, and each holds its number of occurrences. |
| `Transition.Reindex` | scripts/sankey.py:41-42 | The reindexed matrix is n x n, with rows and columns indexed by the scale in scale order. |
| `Transition.TransitionMatrix` | scripts/sankey.py:41-42 | The crosstab reindexed by the scale with zero fill. Its contract is `Transition.TransitionCounts`, with the marginals in `Transition.RowSum`, `Transition.ColumnSum` and `Transition.MatrixTotalIsPairCount`. |
| `Transition.TransitionCounts` | scripts/sankey.py:41-42 | Cell (i, j) is the number of pairs (scale[i], scale[j]), which is 0 when that combination does not occur. |
| `Transition.RowSum` | scripts/sankey.py:40-42 | Row i sums to the count of scale[i] among the paired "before" answers. |
| `Transition.ColumnSum` | scripts/sankey.py:40-42 | Column j sums to the count of scale[j] among the paired "after" answers. |
| `Transition.Column` | scripts/sankey.py:41-42 | Column j of the matrix, entry by entry. |
| `Transition.MatrixTotalIsSumOfRows` | scripts/sankey.py:41-42 | The matrix total is the sum of the row sums. |
| `Transition.MatrixTotalIsPairCount` | scripts/sankey.py:40-42 | For pairs on a scale of distinct labels, the matrix total equals the number of pairs. |
| `Sankey.RowLinks` | scripts/sankey.py:52-57 | The links the inner loop appends for the first j cells of a row, in loop order. Its contract is carried by `Sankey.RowLinksSound`, `Sankey.RowLinksOrdered`, `Sankey.RowLinksComplete` and `Sankey.RowLinksSum`. |
| `Sankey.LinksUpTo` | scripts/sankey.py:50-57 | The links the outer loop has appended after i rows. Its contract is carried by the `Sankey.LinksUpTo*` lemmas. |
| `Sankey.Links` | scripts/sankey.py:50-57 | All links of the matrix in loop order. Its contract is `Sankey.LinksDescribeMatrix`, and `Sankey.SankeyLinks` proves the loops produce it. |
| `Sankey.RowLinksSound` | scripts/sankey.py:52-57 | Each link the inner loop emits for row i has source i, carries its non-zero cell and targets n + column. |
| `Sankey.RowLinksOrdered` | scripts/sankey.py:52-57 | The inner loop emits its links in strictly increasing target order. |
| `Sankey.RowLinksComplete` | scripts/sankey.py:52-57 | Every non-zero cell of the row so far has its link. |
| `Sankey.RowLinksSum` | scripts/sankey.py:52-57 | The row's link values sum to the row's partial sum. |
| `Sankey.LinksUpToSound` | scripts/sankey.py:50-57 | Every link emitted after i rows comes from a row before i, targets [n, 2n), and carries its cell's non-zero count. |
| `Sankey.LinksUpToOrdered` | scripts/sankey.py:50-57 | The links emitted so far are in row-major order. |
| `Sankey.LinksUpToComplete` | scripts/sankey.py:50-57 | Every non-zero cell of the finished rows has its link. |
| `Sankey.LinksUpToSum` | scripts/sankey.py:50-57 | The values emitted after i rows sum to the total of those rows. |
| `Sankey.LinksDescribeMatrix` | scripts/sankey.py:50-57 | On a square matrix, the links describe it exactly. Each link goes from [0, n) to [n, 2n) and carries its cell's value, which is > 0. Every non-zero cell has a link. The links are in row-major order, so there is at most one per cell. The values sum to the matrix total. |
| `Sankey.SumValuesAsLinks` | scripts/sankey.py:55-57 | Read as links, the three parallel lists have link values summing to `sum(val)`. |
| `Sankey.AsLinksSnoc` | scripts/sankey.py:55-57 | Appending to each of `src`, `tgt` and `val` appends one link. |
| `Sankey.SankeyLinks` | scripts/sankey.py:50-57 | The nested loops leave `src`, `tgt` and `val` of equal length. Read as links, they are exactly the specified link list, every one of them sound. They cover every non-zero cell and come in row-major order. `sum(val)` is the matrix total. The same loops recur at 115-122 and 185-192. |
| `Sankey.LinkListEntry` | scripts/sankey.py:53-57 | For every k, src[k] < n and n <= tgt[k] < 2n. val[k] is cell (src[k], tgt[k] - n) of the matrix, and val[k] > 0. |
| `Sankey.Prefixed` | scripts/sankey.py:46-47 | Each list comprehension prefixes every scale label, keeping the order. |
| `Sankey.NodeLabels` | scripts/sankey.py:46-48 | There are 2n labels. Label i is "Before: " + scale[i], and label n + i is "After: " + scale[i], matching the link numbering. |
| `Sankey.ScaleOf` | scripts/sankey.py:177-186 | The scale each function indexes by. It is `LIKERT5` for the 5-point function (lines 42, 46-52) and `THREE_BINS` for both 3-bin functions. The "ordered" one is included: it indexes by `THREE_BINS` on the cited lines. Stated in `Sankey.OrderedVariantIsThreeBin`. |
| `Sankey.CleanFor` | scripts/sankey.py:102-103 | `_clean_likert` for the 5-point function (lines 38-39) and `_to_three_bins` for both 3-bin functions (lines 102-103 and 172-173). Its contract is `Sankey.CleanForOnScale`. |
| `Sankey.CleanForOnScale` | scripts/sankey.py:38-39 | Each variant's cleaning yields only labels of the scale it indexes by. This covers the 5-point cleaning here and the 3-bin cleaning at lines 102-103 and 172-173. |
| `Sankey.VariantPairs` | scripts/sankey.py:38-40 | The `df` of one variant: `CleanFor` on both columns, then `PairResponses`. The same lines recur at 102-104 and 172-174. Its contract is `Sankey.VariantPairsFacts`. |
| `Sankey.VariantPairsFacts` | scripts/sankey.py:38-40 | The pairs lie on a scale of distinct labels. There are as many pairs as the shorter cleaned column has entries. |
| `Sankey.LinksCountPairs` | scripts/sankey.py:50-57 | On a matrix that counts pairs, every link carries the number of pairs of its (before, after) labels. |
| `Sankey.PairsHaveLinks` | scripts/sankey.py:50-57 | Every combination that occurs among the pairs has its link. |
| `Sankey.DiagramDescribesPairs` | scripts/sankey.py:40-57 | From pairs to the diagram:<br>- every link joins "Before: b" to "After: a" and carries the non-zero number of pairs (b, a);<br>- every combination that occurs has its link;<br>- the link values sum to the number of pairs. |
| `Sankey.SankeyDescribesPairs` | scripts/sankey.py:38-57 | From two raw columns to the links, for each variant: the facts of `DiagramDescribesPairs` hold for the variant's pairs, and the total is the length of the shorter cleaned column. |
| `Sankey.OrderedVariantIsThreeBin` | scripts/sankey.py:164-192 | The "ordered" function indexes by `THREE_BINS`, not `THREE_BINS_ORDERED`, and pairs exactly as the 3-bin function does. Its matrix, labels and links are therefore the same. |
| `Sankey.ILocColumn` | scripts/sankey.py:38 | `iloc[:, position]` succeeds exactly when -width <= position < width, and otherwise fails with `IndexOutOfBounds(position)`. On success it returns column `position`, or column `width + position` for a negative position, labelled 0, 1, ... |
| `Sankey.MakeTrustSankey` | scripts/sankey.py:31-57 | The pipeline fails exactly when either column position is out of range, naming the first offending position. Otherwise it returns the reindexed matrix of the variant's pairs and the node labels. Its link lists have equal length, are the matrix's links, and their values sum to the number of pairs. |

## Left out

- **Export and rendering.** The model leaves out the Plotly figure,
  `write_image`, the PIL PNG-to-PDF conversion with its try/except, the
  `to_csv` export of the matrix, `mkdir` and the `print` calls
  (scripts/sankey.py:37, 43, 60-94, 100, 108, 124-161, 170, 178, 194-239). These are
  file and rendering I/O through libraries, and the model stops at the data
  that would be handed to them (`SankeyData`).
- **Layout.** The model leaves out every figure setting: node colours
  (scripts/sankey.py:60-63, 124-127, 194-197) and figure margins and sizes.
  It also leaves out the "ordered" function's fixed x/y node positions and
  its `arrangement="snap"` (scripts/sankey.py:202-213), and its larger
  bottom margin (scripts/sankey.py:220). Only the 5-point function's
  positions are commented out (scripts/sankey.py:71-72). These settings
  change how the diagram is drawn, not its data.
- **The `__main__` block.** Reading the Excel files and slicing the two
  groups with `iloc[0:15]` / `iloc[15:30]` (scripts/sankey.py:243-292) is
  left out. The frames are parameters of `MakeTrustSankey`, given as their
  columns with a default RangeIndex.
- **The out-of-range error.** pandas raises `IndexError("single positional
  indexer is out-of-bounds")` for an out-of-range `iloc[:, k]`
  (scripts/sankey.py:38), and that message does not carry k.
  `IndexOutOfBounds(position)` carrying the position is the model's own
  addition, so that `ILocColumn` and `MakeTrustSankey` can say which
  position failed.
- **Default column positions.** `before_col_idx` and `after_col_idx`
  default to 7 (scripts/sankey.py:32, 98, 168). `MakeTrustSankey` takes
  both positions as ordinary parameters, without the default.
- **Non-string cells.** `astype(str)` on non-string cells is not modelled.
  A cell is taken to be its string form already, so a missing cell is
  "nan". Number formatting of numeric cells is not modelled.
- **Crosstab's stored zeros.** pandas `crosstab` also stores zeros for some
  unobserved combinations. `Crosstab` keeps only observed combinations.
  After `reindex(fill_value=0)` the two are indistinguishable, and that is
  the only way the matrix is used.
- **`int(trans.loc[b, a])`.** The counts are unbounded naturals, so the
  integer conversion of a count changes nothing.
- **Other scripts.** scripts/script.py (Likert bar charts, PDF cropping,
  frame assembly), scripts/trust.py, scripts/upset.py and scripts/phase1.py
  are not part of this model. They hold plotting and loading code. The last
  one is not valid Python.
- **Chi-square and pooled counts.** The chi-square test and pooled group
  counts appear in no source file of the script, so there is no code to
  model.
- `Sankey.SankeyDescribesPairs`: it does not restate the node labels. They
  come from `Sankey.NodeLabels`, whose contract gives label i and label
  n + i, the numbering the links use.
