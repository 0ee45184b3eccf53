# split_ranges_by_space, modelled in Dafny

This project models the grouping engine of `excel_file_copy_paste.py`. The engine splits the content range of a spreadsheet into one row span per site. It also models the `CopyOptions` table of Excel paste codes.

`split_ranges_by_space(sheet, address, ref_col, name_col)` works in five steps:

1. It scans the content range address (for example `r8:ce664`) for its digit runs (the top and bottom row numbers) and its letter runs (the left and right column labels).
2. It reads the ref column and the name column over those rows and forward-fills both.
3. It pairs the filled cells into `(name, ref)` keys.
4. For each distinct key, in order of first appearance, it records the span from the key's first row to its last row and the label `name_ref`.
5. It returns one range address per span (rows shifted by the top row) together with the list of labels.

The project has one module per stage:

- `Optional`: `Option`, `Result`, and the extraction of a fully present column.
- `ForwardFill`: `ffill` over `seq<Option<T>>`.
- `RangeAddress`: `re.findall` for `[\d]+` and `[a-zA-Z]+`, `int()` and `str()` on row numbers, and the formatting of a range address.
- `Grouping`: keys, `drop_duplicates` as first-appearance filtering, first and last index of a key, and the loop that collects spans and labels (`CollectSpans`).
- `SplitRanges`: the whole function, as a specification function `Split` and as the method `SplitRangesBySpace` that follows the code's order of steps.
- `Scenarios`: a worked example.
- `CopyOptions`: the paste-type codes.

`split_ranges_by_space` has no error handling of its own. `Split` returns a `Result` that names the three points where the code stops:

- `RowTokenCount`: the address does not hold exactly two digit runs, so `top` is unbound at line 63.
- `MissingLeadingValue`: the first cell of a grouping column is empty. It is still empty after the fill, and the label concatenation at line 80 fails on the first loop pass.
- `ColumnTokenCount`: the address does not hold exactly two letter runs, so `left` is unbound at line 82. The comprehension only evaluates `left` when there is at least one span, so an input with no rows still returns two empty lists.

The only precondition is that both columns have the same number of cells, which holds because both are read over the same rows.

Labels are not always unique. Two different keys such as `("a_b", "c")` and `("a", "b_c")` share the label `a_b_c` (`Grouping.LabelsCanCollide`). Labels are unique when no name contains an underscore (`Grouping.LabelInjective`).

The worked example in `Scenarios` takes `r8:ce13` with names `X, -, -, Y, -, -` and refs `1, -, 2, 2, -, -`. Its outputs come out as `X_1`, `X_2`, `Y_2`. The code visits keys in order of first appearance: `(X, 2)` first appears at row 2 and `(Y, 2)` at row 3.

## Model

| member | source | states |
|---|---|---|
| ForwardFill.FillFrom | excel_file_copy_paste.py:65-70 | filling from a carried value keeps the length, keeps every present cell, copies the previous result into every empty cell, and puts the carried value in an empty first cell |
| ForwardFill.Fill | excel_file_copy_paste.py:65-70 | `ffill` keeps the length and every present cell, gives every empty cell the previous cell's filled value, and leaves an empty first cell empty |
| ForwardFill.FillSource | excel_file_copy_paste.py:65 | each filled cell is the nearest present cell at or above it; when no such cell exists, the cell is still empty |
| ForwardFill.FillCompletes | excel_file_copy_paste.py:63-70 | after the fill every cell is present if and only if the first cell was present |
| ForwardFill.FillComplete | excel_file_copy_paste.py:65-70 | filling a fully present column returns it unchanged |
| ForwardFill.FillIdempotent | excel_file_copy_paste.py:65-70 | filling twice is the same as filling once |
| RangeAddress.RunLength | excel_file_copy_paste.py:47-48 | the length of the longest prefix made of one character class: that prefix is all in the class and the next character is not |
| RangeAddress.Tokens | excel_file_copy_paste.py:46-59 | every token that `findall` returns is a non-empty run of the class |
| RangeAddress.TokensCoverClass | excel_file_copy_paste.py:47-55 | the tokens joined together are exactly the class characters of the address, in order: none is lost and none is invented |
| RangeAddress.TokensNone | excel_file_copy_paste.py:47-55 | text with no character of the class yields no token |
| RangeAddress.TokensOfToken | excel_file_copy_paste.py:47-55 | a single run of the class is a single token |
| RangeAddress.TokensAppend | excel_file_copy_paste.py:47-55 | where no run can continue across a seam, the tokens of a concatenation are the tokens of each part in order |
| RangeAddress.LettersThenDigits | excel_file_copy_paste.py:82-83 | a column label followed by a row number splits into the tokens of each |
| RangeAddress.FormatTokens | excel_file_copy_paste.py:82-83 | the tokens of `left + n + ":" + right + m` are those of its four parts, in order |
| RangeAddress.TwoTokens | excel_file_copy_paste.py:50-59 | `top`/`bottom` (or `left`/`right`) are bound if and only if there are exactly two tokens, and then they are the first and second token in textual order |
| RangeAddress.DecimalValue | excel_file_copy_paste.py:82 | `int(top)` of a digit string is zero exactly when every digit is `0` |
| RangeAddress.DecimalLeadingZero | excel_file_copy_paste.py:82 | a row number padded with a leading zero reads the same under `int()` as the unpadded one |
| RangeAddress.DigitChar | excel_file_copy_paste.py:82-83 | the character written for a digit is a decimal digit that reads back as that digit |
| RangeAddress.DecimalString | excel_file_copy_paste.py:82-83 | `str()` of a row number is a non-empty run of digits with no leading zero |
| RangeAddress.DecimalRoundTrip | excel_file_copy_paste.py:82-83 | `int(str(n)) == n` for every row number |
| RangeAddress.FormatRange | excel_file_copy_paste.py:82-83 | the address built from two column labels and two row numbers scans into exactly those labels and the decimal forms of those numbers |
| RangeAddress.FormatRangeParses | excel_file_copy_paste.py:82-83 | a formatted range scans back into its own two column labels and its two row numbers, which read back as the numbers it was built from |
| Grouping.Keys | excel_file_copy_paste.py:72 | pairing the two filled columns gives one key per row, with row `i`'s name and ref |
| Grouping.Label | excel_file_copy_paste.py:80 | `name + '_' + ref` has one character more than name and ref together, and when the name has no underscore its first underscore is the separator |
| Grouping.FirstUnderscore | excel_file_copy_paste.py:80 | the position of the first underscore of a label, or its length when there is none |
| Grouping.LabelRoundTrip | excel_file_copy_paste.py:80 | when a name has no underscore, cutting its label at the first underscore gives back the key |
| Grouping.LabelInjective | excel_file_copy_paste.py:80 | keys whose names have no underscore have distinct labels |
| Grouping.LabelsCanCollide | excel_file_copy_paste.py:80 | two different keys can share a label, and so an output name |
| Grouping.Distinct | excel_file_copy_paste.py:76 | `drop_duplicates` keeps exactly the keys that occur, and no more of them than there are rows |
| Grouping.DistinctNoDuplicates | excel_file_copy_paste.py:76 | `drop_duplicates` keeps no key twice |
| Grouping.DistinctInFirstAppearanceOrder | excel_file_copy_paste.py:76 | the kept keys are in order of their first row |
| Grouping.DistinctCount | excel_file_copy_paste.py:76 | the number of kept keys is the number of distinct keys |
| Grouping.FirstIndex | excel_file_copy_paste.py:78 | `index.min()` of a key's rows is a row carrying the key, and no earlier row carries it |
| Grouping.LastIndex | excel_file_copy_paste.py:79 | `index.max()` of a key's rows is a row carrying the key, and no later row carries it |
| Grouping.SpanOf | excel_file_copy_paste.py:77-79 | the `(index.min(), index.max())` pair of a key satisfies `start <= end < n`, and the key occurs at both ends |
| Grouping.SpanOfIs | excel_file_copy_paste.py:77-79 | a key's span is fixed by any pair of rows carrying the key with no occurrence before the first or after the second |
| Grouping.Spans | excel_file_copy_paste.py:74-79 | one span per distinct key |
| Grouping.Labels | excel_file_copy_paste.py:80 | one label per distinct key |
| Grouping.CollectSpans | excel_file_copy_paste.py:74-80 | the loop's `spans` and `name_ref` are the span and label of each distinct key in first-appearance order, as many as there are distinct keys |
| Grouping.SpanBounds | excel_file_copy_paste.py:77-79 | every span satisfies `0 <= s <= e < n`, its key occurs at `s` and at `e`, and no row before `s` or after `e` carries it |
| Grouping.SpanStartsIncrease | excel_file_copy_paste.py:76-79 | span starts strictly increase along the output |
| Grouping.SpansCoverRows | excel_file_copy_paste.py:77-79 | every row lies in the span of its own key |
| Grouping.ContiguousSpansPartition | excel_file_copy_paste.py:77-79 | when no key recurs after an interruption, a row lies in a key's span if and only if it carries that key |
| Grouping.DistinctABAC | excel_file_copy_paste.py:76 | keys `A, B, A, C` keep `A, B, C` |
| Grouping.InterruptedKeyOverlaps | excel_file_copy_paste.py:76-79 | for keys `A, B, A, C`, A's span is rows 0-2 and covers the B row: spans are min/max, not runs |
| SplitRanges.LeadingPresent | excel_file_copy_paste.py:63-80 | the leading cells of both columns are present exactly when the fill leaves no empty cell in either column, which is when line 80 can build every label |
| SplitRanges.RowKeys | excel_file_copy_paste.py:63-72 | when the leading cells are present, each row's key is the pair of its filled name and ref cells |
| SplitRanges.RowSpans | excel_file_copy_paste.py:63-79 | the `spans` list computed from the raw cells has at most one span per row, and every span lies within the rows with `start <= end` |
| SplitRanges.RangesOf | excel_file_copy_paste.py:82-83 | one address per span: `left + str(top + s) + ":" + right + str(top + e)` |
| SplitRanges.Split | excel_file_copy_paste.py:41-85 | the function fails exactly when the address lacks two row numbers, a leading cell is empty, or there are rows but the address lacks two column labels, with the specific error in each case; on success both lists have equal length, at most one entry per row, and no rows give two empty lists |
| SplitRanges.SplitRangesBySpace | excel_file_copy_paste.py:41-85 | the code's order of steps (scan, fill, pair, loop, comprehension) returns exactly what `Split` specifies |
| SplitRanges.SplitSuccess | excel_file_copy_paste.py:82-85 | a successful split of at least one row had two row numbers, two column labels and present leading cells, and returns the formatted spans and the labels of the distinct keys |
| SplitRanges.SplitLabelIs | excel_file_copy_paste.py:80-85 | output label `i` is the label of the `i`-th distinct key |
| SplitRanges.SplitOutputGroup | excel_file_copy_paste.py:76-85 | output `i` is labelled `name + "_" + ref` of the filled cells at its span's first and last rows, and no row outside the span has that name and ref |
| SplitRanges.RangesScanBack | excel_file_copy_paste.py:82-83 | each formatted span scans back into its two column labels and the row numbers `top + s` and `top + e` |
| SplitRanges.SplitOutputScansBack | excel_file_copy_paste.py:82-85 | output range `i` has the input address's column labels and the rows `top + s .. top + e` of its span |
| SplitRanges.SplitCountsGroups | excel_file_copy_paste.py:76-85 | there are as many outputs as distinct filled `(name, ref)` pairs |
| SplitRanges.SplitStartsIncrease | excel_file_copy_paste.py:76-83 | the output spans start on strictly increasing rows |
| SplitRanges.SplitTilesContiguousGroups | excel_file_copy_paste.py:77-79 | when every group occupies one block of rows, each row lies in the span of exactly one output |
| Scenarios.ScenarioKeys | excel_file_copy_paste.py:63-72 | names `X, -, -, Y, -, -` and refs `1, -, 2, 2, -, -` fill into the keys `X/1, X/1, X/2, Y/2, Y/2, Y/2` |
| Scenarios.ScenarioSpans | excel_file_copy_paste.py:76-79 | those keys have the spans `0..1`, `2..2` and `3..5` |
| Scenarios.ScenarioLabels | excel_file_copy_paste.py:80 | those keys have the labels `X_1`, `X_2`, `Y_2` |
| Scenarios.ScenarioAddress | excel_file_copy_paste.py:46-59 | `r8:ce13` scans into the columns `r` and `ce` and the top row 8 |
| Scenarios.ScenarioRanges | excel_file_copy_paste.py:82-83 | the three spans shifted by row 8 are `r8:ce9`, `r10:ce10` and `r11:ce13` |
| Scenarios.Scenario | excel_file_copy_paste.py:41-85 | the whole function on that input returns those three ranges with the labels `X_1`, `X_2`, `Y_2` |
| CopyOptions.Code | excel_file_copy_paste.py:16-30 | the `.value` of each of the twelve members, as listed; its properties are stated by the rows below |
| CopyOptions.FromCode | excel_file_copy_paste.py:13-30 | a code maps back only to a paste type that has that code |
| CopyOptions.CodeRoundTrip | excel_file_copy_paste.py:13-30 | every paste type is recovered from its code |
| CopyOptions.CodesDistinct | excel_file_copy_paste.py:13-30 | no two paste types share a code |
| CopyOptions.TwelvePasteTypes | excel_file_copy_paste.py:13-30 | there are exactly twelve paste types, with pairwise distinct codes |

## Left out

- `range_to_range` (lines 33-38) is a call into Excel's copy and `PasteSpecial`. It has no logic of its own, so only the codes it passes are modelled.
- `used_range` (lines 88-95) and `district_heating_file_split` (lines 99-166) are Excel session, workbook and file I/O with fixed paths and logging.
- The sheet reads at lines 64 and 69 become the two input sequences `refCells` and `nameCells`, with `None` for an empty cell. The `ref_col` and `name_col` arguments are not modelled. Neither is the link between the number of cells and `bottom - top + 1`: the model takes whatever cells it is given.
- xlwings returns a single value rather than a list for a one-row range, and numeric cells come back as floats. Cells are modelled as strings.
- Digit runs are ASCII `0-9`. Python's `\d` also matches other Unicode decimal digits, which the model does not cover.
- A leading empty cell makes the code fail at line 80 on its first loop pass. The model reports it as `MissingLeadingValue` before the loop. The outcome is the same: no output.
- pandas and the regular-expression engine are not modelled. Only their effect on these inputs is: `ffill`, `concat`, `drop_duplicates`, the boolean masks with `min`/`max`, and `findall`.
- The `CopyOptions` comments linking each code to the Microsoft documentation are not modelled.
