# GeoDT_ML_v1 pipeline core in Dafny

This project models the sequential logic underneath the GeoDT_ML_v1 Python
scripts of GeoThermalCloud. Those scripts train inverse deep-learning models
of enhanced geothermal systems and rank the GeoDT input features by F-test and
mutual-information sensitivity. The model is written over immutable
sequences, sets, maps and `real`s, and covers six pieces:

- **Hyperparameter grid** (`HpGrid`, `HpRecord`, `Text`).
  - Three tiers of six nested loops enumerate the grid. Models are numbered
    from 1, 9376 and 18751.
  - Each model's configuration is written as a seven-line `key = value`
    record, hp_input_deck.txt, into its folder.
  - The record is read back positionally, by the generator's self-test and by
    every training job.
- **Work partition** (`WorkPartition`).
  - The MPI root builds block `num_total*i+1 .. num_total*(i+1)` for each
    rank i.
  - It sends each block to its rank, except block 0, which it keeps.
  - Each realization number k selects model folder `k + start - 1`.
- **Split gathering and outlier filtering** (`Outliers`, `Seqs`).
  - 1-based realization IDs select rows `id-1` with numpy's fancy-index rules,
    including the wrap-around of negative indices.
  - Positions whose scaled NPV is at most -1 are neglected.
  - The kept positions select the targets and the features alike.
- **Train/validation/test split** (`Splits`). A shuffled list is cut with
  Python slicing, and the reduced training sets are taken as prefixes.
- **Mixup pairs** (`Mixup`). `combinations(range(n), k)` in itertools order,
  and the fixed mixup weight 0.5.
- **Feature-importance post-processing** (`Importance`, `Ranking`).
  - NaN scores are set to 0.
  - Scores are divided by their maximum.
  - A per-time-step score matrix is filled, and its rows are summed.
  - Features are ranked by `argsort()[::-1]`.
  - The labels and every other per-feature array are reordered with the first
    target's ranking.

Parameters stand in for the random generator, the F-test and
mutual-information scorers, the training log and the parser used by the
self-test. File contents are modelled as a map from model ID to record text.
`Files(decks)` gives, for every folder, `WriteRecord` of the configuration it
was written from.

Modules:

- `Outcomes`: the `Option` and `Result` types, and the Python exceptions the
  scripts can raise.
- `Seqs`: ranges, intervals, distinctness, numpy fancy indexing and reordering.
- `Text`: str.strip, str.split, str.join, readlines, int() and str().
- `HpRecord`: the record format and its positional parser.
- `HpGrid`: the loops, the numbering, the write loops and the self-test.
- `WorkPartition`: the rank blocks and the folder mapping.
- `Outliers`: the neglect/keep lists and row gathering.
- `Splits`: the three slices and the training prefixes.
- `Mixup`: the combinations and the mixing weight.
- `Ranking`: the descending argsort and co-reordering.
- `Importance`: NaN handling, normalisation, the matrix fill and aggregation.

Paths below are relative to the repository root. They all lie in
`EGS/GeoDT_ML_v1/Python_Scripts/`.

## Model

| member | source | states |
|---|---|---|
| Seqs.Range | EGS/GeoDT_ML_v1/Python_Scripts/get_train_val_test_splits.py:28 | `range(lo, hi)` / `np.arange`: hi-lo entries (none when the bounds cross), entry i being lo+i |
| Seqs.Interval | EGS/GeoDT_ML_v1/Python_Scripts/get_preprocessed_data.py:279 | `set(range(lo, hi))`: an integer is a member exactly when lo <= k < hi |
| Seqs.IntervalSplit | EGS/GeoDT_ML_v1/Python_Scripts/get_dir_hp_dnn_we.py:42-44 | adjacent ID ranges join into one range, which is how the tier ranges make up 1 .. num_dnn_folders |
| Seqs.RangeMembership | EGS/GeoDT_ML_v1/Python_Scripts/get_mixup.py:46 | the list `range(lo, hi)` holds exactly the integers of lo .. hi-1 |
| Seqs.PermutationOfDistinct | EGS/GeoDT_ML_v1/Python_Scripts/get_train_val_test_splits.py:28-29 | a shuffle of a list without repetitions has no repetitions |
| Seqs.TakeRows | EGS/GeoDT_ML_v1/Python_Scripts/get_dnn_results_mpi4py.py:266-272 | numpy fancy indexing: it succeeds exactly when every index is in -n .. n-1, and otherwise raises IndexError; output row j is the source row of index j, a negative index counting from the end |
| Seqs.Reorder | EGS/GeoDT_ML_v1/Python_Scripts/get_ftest_mi_npv.py:119 | `xs[ids]`: one entry per index; ReorderAt states each position |
| Seqs.ReorderAt | EGS/GeoDT_ML_v1/Python_Scripts/get_ftest_mi_npv.py:119 | `xs[ids]`: position j of the reordered array is `xs[ids[j]]` |
| Seqs.ReorderAppend | EGS/GeoDT_ML_v1/Python_Scripts/get_ftest_mi_npv.py:122 | reordering by a concatenated index list is the concatenation of the two reorderings |
| Seqs.ReorderMultiset | EGS/GeoDT_ML_v1/Python_Scripts/get_ftest_mi_npv.py:120 | two index lists that are permutations of each other select the same multiset of entries |
| Seqs.ReorderIdentity | EGS/GeoDT_ML_v1/Python_Scripts/get_ftest_mi_npv.py:119 | reordering by 0 .. n-1 gives the array back |
| Seqs.ReorderByPermutation | EGS/GeoDT_ML_v1/Python_Scripts/get_ftest_mi_npv.py:119-122 | reordering by any permutation of 0 .. n-1 keeps every entry with its multiplicity: nothing is lost or duplicated |
| Text.LeadingRun | EGS/GeoDT_ML_v1/Python_Scripts/get_dir_hp_dnn_we.py:231 | the characters a strip drops at the front all belong to its whitespace set (str.isspace for str.strip(), IntSpace for int()), and it stops at the first character that does not |
| Text.TrailingRun | EGS/GeoDT_ML_v1/Python_Scripts/get_dir_hp_dnn_we.py:231 | the characters a strip drops at the back all belong to its whitespace set (str.isspace for str.strip(), IntSpace for int()), and it stops at the last character that does not |
| Text.StripWith | EGS/GeoDT_ML_v1/Python_Scripts/get_dnn_results_mpi4py.py:294 | stripping by a whitespace set: the result starts and ends with a character outside the set, is a contiguous slice of the input, and everything cut off on either side is in the set |
| Text.Strip | EGS/GeoDT_ML_v1/Python_Scripts/get_dir_hp_dnn_we.py:231 | str.strip(): the result starts and ends with a non-space character, is a contiguous slice of the input, and everything cut off on either side is str.isspace whitespace (space, `\t` .. `\r`, `\x1c` .. `\x1f`, `\x85`, `\xa0` and the Unicode space and line separators) |
| Text.StripKeepsTrimmed | EGS/GeoDT_ML_v1/Python_Scripts/get_dnn_results_mpi4py.py:289 | str.strip() leaves text without surrounding whitespace unchanged |
| Text.StripWithKeepsTrimmed | EGS/GeoDT_ML_v1/Python_Scripts/get_dnn_results_mpi4py.py:294 | a strip leaves text that has no character of its whitespace set at either end unchanged |
| Text.TrimmedForInt | EGS/GeoDT_ML_v1/Python_Scripts/get_dnn_results_mpi4py.py:294 | text without surrounding str.isspace whitespace has none of the narrower whitespace int() skips either |
| Text.StripWithLeadingBlank | EGS/GeoDT_ML_v1/Python_Scripts/get_dnn_results_mpi4py.py:290 | when the blank is in the whitespace set, a strip removes one blank in front of otherwise trimmed text |
| Text.StripLeadingBlank | EGS/GeoDT_ML_v1/Python_Scripts/get_dir_hp_dnn_we.py:232 | str.strip() removes the blank that ", " leaves in front of a list item |
| Text.SplitOn | EGS/GeoDT_ML_v1/Python_Scripts/get_dir_hp_dnn_we.py:232 | `split(",")` always gives at least one piece, and no piece contains the separator |
| Text.SplitWithout | EGS/GeoDT_ML_v1/Python_Scripts/get_dnn_results_mpi4py.py:290 | text without the separator splits into itself alone |
| Text.SplitAtFirst | EGS/GeoDT_ML_v1/Python_Scripts/get_dnn_results_mpi4py.py:290 | the split cuts at the first separator and splits the rest in the same way |
| Text.SplitJoin | EGS/GeoDT_ML_v1/Python_Scripts/get_dir_hp_dnn_we.py:150 | splitting pieces joined with a character none of them holds gives back exactly those pieces |
| Text.JoinSplit | EGS/GeoDT_ML_v1/Python_Scripts/get_dir_hp_dnn_we.py:205-206 | joining the pieces of a split with the separator gives back the text |
| Text.JoinSnoc | EGS/GeoDT_ML_v1/Python_Scripts/get_dir_hp_dnn_we.py:103 | writing one more line after a separator extends the joined text by that separator and that line |
| Text.Universal | EGS/GeoDT_ML_v1/Python_Scripts/get_dir_hp_dnn_we.py:227-229 | open() in text mode reads each "\r\n" and each lone `\r` as `\n`: the result holds no `\r`, is never longer than the file, and a file without `\r` is read unchanged |
| Text.CrLfEnding | EGS/GeoDT_ML_v1/Python_Scripts/get_dir_hp_dnn_we.py:227-229 | a line ended by "\r\n" is read exactly as the same line ended by `\n` |
| Text.CrEnding | EGS/GeoDT_ML_v1/Python_Scripts/get_dir_hp_dnn_we.py:227-229 | a line ended by a lone `\r` (one not followed by `\n`) is read as the same line ended by `\n` |
| Text.SplitOnWithout | EGS/GeoDT_ML_v1/Python_Scripts/get_dir_hp_dnn_we.py:229 | a character the text lacks is in none of the pieces it is cut into |
| Text.ReadLines | EGS/GeoDT_ML_v1/Python_Scripts/get_dir_hp_dnn_we.py:229 | the lines readlines() returns for a file opened in text mode, after newline translation and with each line's terminator removed (every caller strips the line): no line holds `\n` or `\r`; ReadLinesJoin gives the text back from the lines |
| Text.ReadPlainLines | EGS/GeoDT_ML_v1/Python_Scripts/get_dir_hp_dnn_we.py:229 | a text without `\r` is cut at its `\n` characters as it stands, and a final newline starts no extra line |
| Text.DropTrailingEmpty | EGS/GeoDT_ML_v1/Python_Scripts/get_dnn_results_mpi4py.py:287 | a final empty piece after the last '\n' stands only for that trailing separator |
| Text.ReadLinesJoin | EGS/GeoDT_ML_v1/Python_Scripts/get_dir_hp_dnn_we.py:229 | the lines read from a text, rejoined with `\n`, give the newline-translated text back, up to one final newline |
| Text.JoinSplitLines | EGS/GeoDT_ML_v1/Python_Scripts/get_dnn_results_mpi4py.py:287 | cutting a text at every '\n' and rejoining gives the text back |
| Text.ReadJoinedLines | EGS/GeoDT_ML_v1/Python_Scripts/get_dir_hp_dnn_we.py:91-104 | strings without `\n` or `\r` written with `\n` between them, the last one non-empty, are read back one for one by readlines() |
| Text.FindFrom | EGS/GeoDT_ML_v1/Python_Scripts/get_dir_hp_dnn_we.py:231 | the separator search returns the first occurrence at or after the start, and None only when there is none |
| Text.SplitFirst | EGS/GeoDT_ML_v1/Python_Scripts/get_dir_hp_dnn_we.py:231 | `split(" = ", 1)`: one piece exactly when the separator is absent, otherwise two pieces around its first occurrence |
| Text.SplitFirstAssign | EGS/GeoDT_ML_v1/Python_Scripts/get_dnn_results_mpi4py.py:289 | a key without '=' followed by " = " splits right after the key, whatever '=' the value holds |
| Text.DigitChar | EGS/GeoDT_ML_v1/Python_Scripts/get_dir_hp_dnn_we.py:101 | each decimal digit value is printed as the matching digit character |
| Text.NatToString | EGS/GeoDT_ML_v1/Python_Scripts/get_dir_hp_dnn_we.py:103 | str(n) for n >= 0 consists only of decimal digits |
| Text.NatToStringValue | EGS/GeoDT_ML_v1/Python_Scripts/get_dir_hp_dnn_we.py:91 | the digits str(n) prints have value n |
| Text.IntToString | EGS/GeoDT_ML_v1/Python_Scripts/get_dir_hp_dnn_we.py:150 | str(i) is non-empty, has no surrounding blanks, and holds no ',', '=' or line break, so it survives the record format |
| Text.ParseInt | EGS/GeoDT_ML_v1/Python_Scripts/get_dnn_results_mpi4py.py:294 | int() skips IntSpace whitespace at both ends (str.isspace without the ASCII separators `\x1c` .. `\x1f`), then succeeds exactly on a decimal literal (ASCII digits, single underscores only between digits) after at most one sign, and raises ValueError otherwise; the value is the literal's, negated after '-' and unchanged after '+'; the 4300-digit conversion limit is not modelled |
| Text.DropUnderscores | EGS/GeoDT_ML_v1/Python_Scripts/get_dnn_results_mpi4py.py:294 | the grouping underscores int() ignores: every kept character is a character of the text and no underscore, and a text without underscores is kept whole |
| Text.DropSeparator | EGS/GeoDT_ML_v1/Python_Scripts/get_dnn_results_mpi4py.py:294 | one underscore between two runs without underscores is dropped and both runs are kept |
| Text.ParseGrouped | EGS/GeoDT_ML_v1/Python_Scripts/get_dnn_results_mpi4py.py:294 | `int("1_000")` is 1000 |
| Text.ParseBadGrouping | EGS/GeoDT_ML_v1/Python_Scripts/get_dnn_results_mpi4py.py:294 | a doubled, leading or trailing underscore is a ValueError |
| Text.ParseIntToString | EGS/GeoDT_ML_v1/Python_Scripts/get_dir_hp_dnn_we.py:236 | int(str(i)) == i for every integer; Python's 4300-digit conversion limit is not modelled (see "## Left out") |
| Text.ParseBlankIntToString | EGS/GeoDT_ML_v1/Python_Scripts/get_dnn_results_mpi4py.py:290 | int(" " + str(i)) == i: the blank after a comma in the neurons list is harmless (up to the 4300-digit limit, which is not modelled) |
| Text.ParseSeparatorControl | EGS/GeoDT_ML_v1/Python_Scripts/get_dir_hp_dnn_we.py:236 | str.strip() removes a leading `\x1c`, but int() does not skip `\x1c` in front of a number or `\x1f` after it: both are a ValueError |
| Text.ParseUnicodeBlank | EGS/GeoDT_ML_v1/Python_Scripts/get_dir_hp_dnn_we.py:236 | int() skips non-ASCII whitespace: a no-break space in front of a number is ignored |
| HpRecord.IntStrings | EGS/GeoDT_ML_v1/Python_Scripts/get_dir_hp_dnn_we.py:205-206 | one str() per layer width, in order |
| HpRecord.RecordLines | EGS/GeoDT_ML_v1/Python_Scripts/get_dir_hp_dnn_we.py:91-103 | the record is seven lines, line i starting with the i-th key, from `num_layers    = ` to `batch_size    = ` |
| HpRecord.WriteRecord | EGS/GeoDT_ML_v1/Python_Scripts/get_dir_hp_dnn_we.py:88-104 | the file text, the seven lines joined by `\n` with no final newline; for a well-formed configuration readlines() gives back exactly those lines |
| HpRecord.FieldValue | EGS/GeoDT_ML_v1/Python_Scripts/get_dnn_results_mpi4py.py:289-295 | `line.strip().split(" = ", 1)[1]`: IndexError exactly when the stripped line has no " = ", otherwise the text after its first occurrence |
| HpRecord.IntField | EGS/GeoDT_ML_v1/Python_Scripts/get_dnn_results_mpi4py.py:289-295 | `int(...)` of a field: IndexError past the last line, and a result only when the field value parses, as that value |
| HpRecord.TokenField | EGS/GeoDT_ML_v1/Python_Scripts/get_dnn_results_mpi4py.py:291-293 | the text of a float field: IndexError past the last line, otherwise exactly the field value |
| HpRecord.RecordShape | EGS/GeoDT_ML_v1/Python_Scripts/get_dir_hp_dnn_we.py:90-104 | a written record reads back as exactly seven lines, line i starting with the i-th key: num_layers, neurons, dropout_value, alpha_value, lr_values, epochs, batch_size |
| HpRecord.RecordLinesShape | EGS/GeoDT_ML_v1/Python_Scripts/get_dir_hp_dnn_we.py:148-160 | the seven written lines each start with their key, hold no line break, and the last is non-empty |
| HpRecord.ReadRecordLines | EGS/GeoDT_ML_v1/Python_Scripts/get_dir_hp_dnn_we.py:229 | readlines() on the record written from a well-formed configuration gives back the seven lines that were written |
| HpRecord.ParseInts | EGS/GeoDT_ML_v1/Python_Scripts/get_dir_hp_dnn_we.py:232 | `[int(i) for i in items]`: on success one integer per item, each the int() of its item |
| HpRecord.ParseRecord | EGS/GeoDT_ML_v1/Python_Scripts/get_dnn_results_mpi4py.py:285-295 | the positional parse fails on a file of fewer than seven lines; its inverse is WriteRecord (RoundTrip) |
| HpRecord.Blanked | EGS/GeoDT_ML_v1/Python_Scripts/get_dir_hp_dnn_we.py:150 | each later list item carries the blank of the ", " in front of it |
| HpRecord.BlankJoin | EGS/GeoDT_ML_v1/Python_Scripts/get_dir_hp_dnn_we.py:205-206 | joining with ", " is joining with "," the items that carry a leading blank |
| HpRecord.SplitNeurons | EGS/GeoDT_ML_v1/Python_Scripts/get_dir_hp_dnn_we.py:232 | "1000, 500, 250".split(",") gives the first width and then each later width with a leading blank |
| HpRecord.ParseIntsAll | EGS/GeoDT_ML_v1/Python_Scripts/get_dnn_results_mpi4py.py:290 | a list whose every item parses to the matching value parses to that list |
| HpRecord.ParseNeurons | EGS/GeoDT_ML_v1/Python_Scripts/get_dnn_results_mpi4py.py:290 | the written neurons text parses back to the list of widths |
| HpRecord.KeyedLine | EGS/GeoDT_ML_v1/Python_Scripts/get_dir_hp_dnn_we.py:233 | the field value of a `key = value` line is the value, for a key without '=' and a value without surrounding blanks |
| HpRecord.NeuronsText | EGS/GeoDT_ML_v1/Python_Scripts/get_dir_hp_dnn_we.py:150 | the neurons value `str(neurons[0]) + ', ' + str(neurons[1])` (one width alone for one layer); ParseNeurons proves it parses back to the widths and NeuronsTextTrimmed that it is non-empty, trimmed and free of line breaks |
| HpRecord.NeuronsTextTrimmed | EGS/GeoDT_ML_v1/Python_Scripts/get_dir_hp_dnn_we.py:93 | the written neurons value is non-empty, has no surrounding blanks and no line break |
| HpRecord.JoinEnds | EGS/GeoDT_ML_v1/Python_Scripts/get_dir_hp_dnn_we.py:150 | a join of non-empty pieces begins with the first piece's first character and ends with the last piece's last character |
| Text.JoinNoChar | EGS/GeoDT_ML_v1/Python_Scripts/get_dir_hp_dnn_we.py:205-206 | joining pieces and a separator that lack a character gives text that lacks it |
| HpRecord.KeyedLineShape | EGS/GeoDT_ML_v1/Python_Scripts/get_dir_hp_dnn_we.py:95 | a key line starts with its key and, with a one-line value, is one line |
| HpRecord.NumLayersField | EGS/GeoDT_ML_v1/Python_Scripts/get_dir_hp_dnn_we.py:91 | line 0 of a record parses back to num_layers |
| HpRecord.NeuronsField | EGS/GeoDT_ML_v1/Python_Scripts/get_dir_hp_dnn_we.py:93 | line 1 yields the neurons text, which parses back to the widths |
| HpRecord.DropoutField | EGS/GeoDT_ML_v1/Python_Scripts/get_dir_hp_dnn_we.py:95 | line 2 gives back the dropout token |
| HpRecord.AlphaField | EGS/GeoDT_ML_v1/Python_Scripts/get_dir_hp_dnn_we.py:97 | line 3 gives back the alpha token |
| HpRecord.LrField | EGS/GeoDT_ML_v1/Python_Scripts/get_dir_hp_dnn_we.py:99 | line 4 gives back the learning-rate token |
| HpRecord.EpochsField | EGS/GeoDT_ML_v1/Python_Scripts/get_dir_hp_dnn_we.py:101 | line 5 parses back to epochs |
| HpRecord.BatchSizeField | EGS/GeoDT_ML_v1/Python_Scripts/get_dir_hp_dnn_we.py:103 | line 6 parses back to batch_size |
| HpRecord.RoundTrip | EGS/GeoDT_ML_v1/Python_Scripts/get_dir_hp_dnn_we.py:227-237 | parsing a written record gives back the configuration that was written: num_layers, neurons, the three float tokens, epochs and batch_size |
| HpGrid.Prefixed | EGS/GeoDT_ML_v1/Python_Scripts/get_dir_hp_dnn_we.py:66 | an outer loop of m steps around inner loops runs m times as many iterations, each led by an outer index below m |
| HpGrid.PrefixedAt | EGS/GeoDT_ML_v1/Python_Scripts/get_dir_hp_dnn_we.py:66-71 | inner iteration j during outer step i is iteration number i*inner + j |
| HpGrid.Odometer | EGS/GeoDT_ML_v1/Python_Scripts/get_dir_hp_dnn_we.py:66-72 | nested loops run the product of their ranges iterations, each index within its range |
| HpGrid.LinearBound | EGS/GeoDT_ML_v1/Python_Scripts/get_dir_hp_dnn_we.py:66-81 | the row-major number of an in-range index vector is below the product of the ranges |
| HpGrid.Digits | EGS/GeoDT_ML_v1/Python_Scripts/get_dir_hp_dnn_we.py:66-71 | iteration number k has one loop index per loop |
| HpGrid.DigitsInRadices | EGS/GeoDT_ML_v1/Python_Scripts/get_dir_hp_dnn_we.py:66-71 | every loop index of iteration k is within its loop's range |
| HpGrid.DigitStep | EGS/GeoDT_ML_v1/Python_Scripts/get_dir_hp_dnn_we.py:66 | the outermost index of iteration k is k divided by the inner iteration count, and the remainder numbers the inner iteration |
| HpGrid.LinearDigits | EGS/GeoDT_ML_v1/Python_Scripts/get_dir_hp_dnn_we.py:72-81 | numbering the loop indices of iteration k row-major gives k back |
| HpGrid.DigitsLinear | EGS/GeoDT_ML_v1/Python_Scripts/get_dir_hp_dnn_we.py:72-81 | the loop indices of the row-major number of an index vector are the vector itself |
| HpGrid.OdometerAt | EGS/GeoDT_ML_v1/Python_Scripts/get_dir_hp_dnn_we.py:66-79 | the iteration with index vector v is number Linear(v) of the nested loops |
| HpGrid.OdometerDigits | EGS/GeoDT_ML_v1/Python_Scripts/get_dir_hp_dnn_we.py:66-79 | iteration number k of the nested loops runs with the loop indices Digits(k) |
| HpGrid.Configs | EGS/GeoDT_ML_v1/Python_Scripts/get_dir_hp_dnn_we.py:66-79 | a tier appends one configuration per iteration: the product of its six list lengths |
| HpGrid.ConfigAt | EGS/GeoDT_ML_v1/Python_Scripts/get_dir_hp_dnn_we.py:66-79 | the configuration the innermost loop body appends for one choice of loop indices; LoopOrder proves configuration k is the one built in iteration k |
| HpGrid.LoopOrder | EGS/GeoDT_ML_v1/Python_Scripts/get_dir_hp_dnn_we.py:66-79 | configuration k is the one built in iteration k of the six nested loops |
| HpGrid.Number | EGS/GeoDT_ML_v1/Python_Scripts/get_dir_hp_dnn_we.py:72-81 | the running counter numbers every appended configuration |
| HpGrid.Entries | EGS/GeoDT_ML_v1/Python_Scripts/get_dir_hp_dnn_we.py:63-81 | a tier's list has one numbered row per configuration |
| HpGrid.TierCounts | EGS/GeoDT_ML_v1/Python_Scripts/get_dir_hp_dnn_we.py:54-72 | the tiers have 3*5^5 = 9375, 3*5^5 = 9375 and 1*5^5 = 3125 rows, each equal to the num_models of its write loop |
| HpGrid.GridLists | EGS/GeoDT_ML_v1/Python_Scripts/get_dir_hp_dnn_we.py:54-61 | the shared value lists hold five distinct values each; in every tier the width choices are distinct and each has num_layers widths (the lists at lines 56-61, 111-118 and 168-173) |
| HpGrid.ModelId | EGS/GeoDT_ML_v1/Python_Scripts/get_dir_hp_dnn_we.py:66-81 | row-major order, batch size fastest and layer widths slowest: loop indices (n,d,a,l,e,b) get ID start + ((((n*5+d)*5+a)*5+l)*5+e)*5+b and that configuration |
| HpGrid.TierIds | EGS/GeoDT_ML_v1/Python_Scripts/get_dir_hp_dnn_we.py:63-81 | a tier's IDs are consecutive from its start counter and fill start .. start+count-1 |
| HpGrid.Ids | EGS/GeoDT_ML_v1/Python_Scripts/get_dir_hp_dnn_we.py:84-86 | the counter column of the appended rows, in order |
| HpGrid.TiersWidthsMatch | EGS/GeoDT_ML_v1/Python_Scripts/get_dir_hp_dnn_we.py:110-113 | in each tier every layer-width choice has num_layers widths |
| HpGrid.TokensWellFormed | EGS/GeoDT_ML_v1/Python_Scripts/get_dir_hp_dnn_we.py:57-59 | the printed dropout, alpha and learning-rate values are non-empty one-line tokens |
| HpGrid.EntryWellFormed | EGS/GeoDT_ML_v1/Python_Scripts/get_dir_hp_dnn_we.py:205-206 | every generated configuration can be written and read back, and its neurons list has num_layers widths |
| HpGrid.Store | EGS/GeoDT_ML_v1/Python_Scripts/get_dir_hp_dnn_we.py:83-90 | `for i in range(0, num_models)` writes file ids[i]: IndexError when num_models exceeds the list, otherwise exactly those files are added and every other file is untouched |
| HpGrid.StoredAt | EGS/GeoDT_ML_v1/Python_Scripts/get_dir_hp_dnn_we.py:88-90 | opening with 'w+' overwrites: a written value survives unless a later write goes to the same file |
| HpGrid.StoredAll | EGS/GeoDT_ML_v1/Python_Scripts/get_dir_hp_dnn_we.py:83-104 | with distinct file names each value ends up in its own file |
| HpGrid.RowConfigs | EGS/GeoDT_ML_v1/Python_Scripts/get_dir_hp_dnn_we.py:84-86 | the configuration columns of the appended rows, in order |
| HpGrid.Files | EGS/GeoDT_ML_v1/Python_Scripts/get_dir_hp_dnn_we.py:88 | there is one record file per written folder |
| HpGrid.ChainedTail | EGS/GeoDT_ML_v1/Python_Scripts/get_dir_hp_dnn_we.py:120 | each tier's counter starts where the previous tier stopped |
| HpGrid.End | EGS/GeoDT_ML_v1/Python_Scripts/get_dir_hp_dnn_we.py:175 | the counter never moves backwards across tiers |
| HpGrid.EndTail | EGS/GeoDT_ML_v1/Python_Scripts/get_dir_hp_dnn_we.py:175 | the final counter of all tiers is that of the later tiers started after the first |
| HpGrid.ConsecutiveIds | EGS/GeoDT_ML_v1/Python_Scripts/get_dir_hp_dnn_we.py:63-81 | consecutive IDs are distinct and fill their interval |
| HpGrid.WriteEntries | EGS/GeoDT_ML_v1/Python_Scripts/get_dir_hp_dnn_we.py:83-104 | one write loop over the first count rows of a tier list; ConsecutiveKeys proves it adds exactly the folders of those rows' IDs and ConsecutiveRows puts each row's configuration in its own folder |
| HpGrid.ConsecutiveKeys | EGS/GeoDT_ML_v1/Python_Scripts/get_dir_hp_dnn_we.py:83-104 | a write loop over rows numbered start, start+1, ... succeeds, adds exactly the folders start .. start+count-1 and leaves every other folder as it was |
| HpGrid.ConsecutiveRows | EGS/GeoDT_ML_v1/Python_Scripts/get_dir_hp_dnn_we.py:140-161 | such a write loop puts each row's configuration into the folder named by its ID |
| HpGrid.FirstBlock | EGS/GeoDT_ML_v1/Python_Scripts/get_dir_hp_dnn_we.py:83-104 | the first write loop succeeds, adds only IDs below the next tier's start, and the remaining loops run on its result |
| HpGrid.BlockKeys | EGS/GeoDT_ML_v1/Python_Scripts/get_dir_hp_dnn_we.py:195-217 | a numbered write loop adds exactly its own ID range and leaves every other folder untouched |
| HpGrid.BlockRows | EGS/GeoDT_ML_v1/Python_Scripts/get_dir_hp_dnn_we.py:195-200 | a numbered write loop puts each row into the folder named by its ID |
| HpGrid.WriteBlocks | EGS/GeoDT_ML_v1/Python_Scripts/get_dir_hp_dnn_we.py:83-217 | the write loops run one after another, stopping at the first IndexError; WriteBlocksDomain proves chained loops succeed and add exactly the IDs from the first start to the last counter |
| HpGrid.WriteBlocksDomain | EGS/GeoDT_ML_v1/Python_Scripts/get_dir_hp_dnn_we.py:83-217 | chained write loops succeed, add exactly the IDs from the first start up to the last counter, and leave earlier folders as they were |
| HpGrid.WriteBlocksRow | EGS/GeoDT_ML_v1/Python_Scripts/get_dir_hp_dnn_we.py:140-145 | after all write loops, row k of loop i is in the folder named by its ID: later tiers do not overwrite it |
| HpGrid.FirstBlockRow | EGS/GeoDT_ML_v1/Python_Scripts/get_dir_hp_dnn_we.py:83-88 | a row of the first loop survives the later loops, which write higher IDs only |
| HpGrid.TierNumbered | EGS/GeoDT_ML_v1/Python_Scripts/get_dir_hp_dnn_we.py:63-81 | a tier's write loop covers all its rows, numbered from its start |
| HpGrid.TierBlocks | EGS/GeoDT_ML_v1/Python_Scripts/get_dir_hp_dnn_we.py:63-217 | the three generate-and-write blocks (one, two and three layers) in program order; TierBlocksChained proves they start at 1, 9376 and 18751 and end after folder 21875 |
| HpGrid.TierBlocksChained | EGS/GeoDT_ML_v1/Python_Scripts/get_dir_hp_dnn_we.py:120 | the three tiers are chained at 1, 9376 and 18751, and end exactly after num_dnn_folders = 21875 |
| HpGrid.GeneratedDomain | EGS/GeoDT_ML_v1/Python_Scripts/get_dir_hp_dnn_we.py:42-49 | the generator succeeds and writes a record into exactly the folders 1 .. 21875 that it created: the tier ranges are disjoint and cover them |
| HpGrid.GenerateDecks | EGS/GeoDT_ML_v1/Python_Scripts/get_dir_hp_dnn_we.py:63-217 | the three generate-and-write blocks; its result is stated by GeneratedDomain (exactly folders 1 .. 21875), GeneratedRow and GeneratedDeck (the configuration in each file) and GeneratedDeckWellFormed |
| HpGrid.GeneratedRow | EGS/GeoDT_ML_v1/Python_Scripts/get_dir_hp_dnn_we.py:200 | row k of write loop i ends up in the folder named by its ID |
| HpGrid.GeneratedDeck | EGS/GeoDT_ML_v1/Python_Scripts/get_dir_hp_dnn_we.py:145 | folder start+k holds row k of its tier |
| HpGrid.TierIndex | EGS/GeoDT_ML_v1/Python_Scripts/get_dir_hp_dnn_we.py:106-109 | each tier is one of the generator's three write loops |
| HpGrid.TierCount | EGS/GeoDT_ML_v1/Python_Scripts/get_dir_hp_dnn_we.py:109 | each tier's write loop walks all its rows |
| HpGrid.FolderTier | EGS/GeoDT_ML_v1/Python_Scripts/get_dir_hp_dnn_we.py:175 | every folder belongs to exactly the tier whose range holds it |
| HpGrid.GeneratedDeckWellFormed | EGS/GeoDT_ML_v1/Python_Scripts/get_dir_hp_dnn_we.py:166-217 | every folder's configuration reads back, with one width per hidden layer: one layer for models 1 .. 9375, two for 9376 .. 18750, three for 18751 .. 21875 |
| HpGrid.FileReadsBack | EGS/GeoDT_ML_v1/Python_Scripts/get_dnn_results_mpi4py.py:285-295 | a file written from a well-formed configuration parses back to it |
| HpGrid.GeneratedFilesReadBack | EGS/GeoDT_ML_v1/Python_Scripts/get_dnn_results_mpi4py.py:287-295 | every generated hp_input_deck.txt parses back to the configuration it was written from |
| HpGrid.SelfTest | EGS/GeoDT_ML_v1/Python_Scripts/get_dir_hp_dnn_we.py:224-237 | a passing self-test returns one parsed record per checked ID |
| HpGrid.SelfTestParses | EGS/GeoDT_ML_v1/Python_Scripts/get_dir_hp_dnn_we.py:227 | a passing self-test found every checked file, and result i is what file i parses to |
| HpGrid.SelfTestMissing | EGS/GeoDT_ML_v1/Python_Scripts/get_dir_hp_dnn_we.py:227 | a checked model without a file makes the self-test fail |
| HpGrid.SelfTestAll | EGS/GeoDT_ML_v1/Python_Scripts/get_dir_hp_dnn_we.py:224-239 | files that all exist and all parse make the self-test return the parsed values in order |
| HpGrid.DecksAt | EGS/GeoDT_ML_v1/Python_Scripts/get_dir_hp_dnn_we.py:224 | the configurations of a list of folders, in list order |
| HpGrid.SelfTestReadsBack | EGS/GeoDT_ML_v1/Python_Scripts/get_dir_hp_dnn_we.py:229-237 | checking folders of well-formed configurations reads each back |
| HpGrid.SelfTestPasses | EGS/GeoDT_ML_v1/Python_Scripts/get_dir_hp_dnn_we.py:222-244 | the self-test passes on any list of generated folders and returns the configuration written to each |
| HpGrid.CheckedIdsAreTierStarts | EGS/GeoDT_ML_v1/Python_Scripts/get_dir_hp_dnn_we.py:222 | the checked IDs 1, 9376, 18751 are the first folder of each tier, all generated |
| HpGrid.FirstEntry | EGS/GeoDT_ML_v1/Python_Scripts/get_dir_hp_dnn_we.py:63-79 | a tier's first row takes the first width choice and the first value of every other list, and carries the start counter |
| HpGrid.FirstDeck | EGS/GeoDT_ML_v1/Python_Scripts/get_dir_hp_dnn_we.py:222-237 | the folder checked for each tier holds that tier's first configuration |
| WorkPartition.Block | EGS/GeoDT_ML_v1/Python_Scripts/get_dnn_results_mpi4py.py:467-473 | rank i's block has num_total entries, entry j being j + num_total*i + 1 |
| WorkPartition.BuildBlock | EGS/GeoDT_ML_v1/Python_Scripts/get_dnn_results_mpi4py.py:468-472 | filling a list of num_total zeros entry by entry yields the block |
| WorkPartition.Dispatch | EGS/GeoDT_ML_v1/Python_Scripts/get_dnn_results_mpi4py.py:466-476 | the root sends block r to rank r for every r in 1 .. size-1, never to itself, in descending rank order, and is left holding block 0 |
| WorkPartition.BlockElems | EGS/GeoDT_ML_v1/Python_Scripts/get_dnn_results_mpi4py.py:470-472 | a block holds exactly num_total*i+1 .. num_total*(i+1) |
| WorkPartition.BlocksDisjoint | EGS/GeoDT_ML_v1/Python_Scripts/get_dnn_results_mpi4py.py:467-476 | the blocks of distinct ranks share no realization number |
| WorkPartition.BlocksCover | EGS/GeoDT_ML_v1/Python_Scripts/get_dnn_results_mpi4py.py:461-479 | ranks 0 .. size-1 together get exactly 1 .. size*num_total |
| WorkPartition.TrainedFolders | EGS/GeoDT_ML_v1/Python_Scripts/get_dnn_results_mpi4py.py:484-488 | the set of folders the ranks train, one per covered realization number; TrainedRange proves it is exactly start .. start + size*num_total - 1 |
| WorkPartition.TrainedRange | EGS/GeoDT_ML_v1/Python_Scripts/get_dnn_results_mpi4py.py:484-488 | the run trains exactly folders start .. start + size*num_total - 1, and with start = 1 folder k for realization number k |
| WorkPartition.FolderOf | EGS/GeoDT_ML_v1/Python_Scripts/get_dnn_results_mpi4py.py:168 | `counter = k_child_rank + start_at_this_hpfolder - 1`; TrainedRange proves the ranks together train exactly folders start .. start+size*num_total-1, each realization number being its own folder when start is 1 |
| WorkPartition.TrainedFoldersGenerated | EGS/GeoDT_ML_v1/Python_Scripts/get_dnn_results_mpi4py.py:168 | with num_total = 20 and start = 1, every trained folder number is one the grid generator wrote, as long as size*20 <= 21875 |
| BestEpoch.MinValLoss | EGS/GeoDT_ML_v1/Python_Scripts/get_dnn_results_mpi4py.py:337 | `val_f1.min()`: a value of the log no larger than any validation loss; none for an empty log |
| BestEpoch.Positions | EGS/GeoDT_ML_v1/Python_Scripts/get_dnn_results_mpi4py.py:338 | the row positions where the boolean mask is true: strictly increasing, each a matching row, and no matching row missed |
| BestEpoch.RowsFrom | EGS/GeoDT_ML_v1/Python_Scripts/get_dnn_results_mpi4py.py:338 | the filter applied from one row on: entry k is the log row at the k-th matching position |
| BestEpoch.RowsWithValLoss | EGS/GeoDT_ML_v1/Python_Scripts/get_dnn_results_mpi4py.py:338 | `df_hist[val_f1 == v]`: the log rows at exactly the matching positions, in log order, each once |
| BestEpoch.MinimalRows | EGS/GeoDT_ML_v1/Python_Scripts/get_dnn_results_mpi4py.py:337-338 | filtering by an attained minimum keeps a row exactly when no row has a smaller validation loss |
| BestEpoch.BestRows | EGS/GeoDT_ML_v1/Python_Scripts/get_dnn_results_mpi4py.py:336-338 | `min_val_f1_df`: rows of the log, none exactly when the log is empty; BestRowsExact says which rows |
| BestEpoch.BestRowsExact | EGS/GeoDT_ML_v1/Python_Scripts/get_dnn_results_mpi4py.py:335-341 | a row is selected exactly when no log row has a smaller validation loss; the selection is non-empty exactly when the log is; all selected rows share one validation loss |
| BestEpoch.BestEpochs | EGS/GeoDT_ML_v1/Python_Scripts/get_dnn_results_mpi4py.py:339-341 | the `epoch`, `val_loss` and `loss` columns of the best rows, aligned row by row; each returned validation loss is the smallest in the log, every epoch attaining it is listed, and the columns are empty exactly when the log is |
| Outliers.Outlying | EGS/GeoDT_ML_v1/Python_Scripts/get_preprocessed_data.py:255-259 | the positions whose scaled NPV is at most -1 |
| Outliers.NeglectList | EGS/GeoDT_ML_v1/Python_Scripts/get_preprocessed_data.py:252-277 | the counter loop lists exactly the outlying positions, in ascending order |
| Outliers.KeptSet | EGS/GeoDT_ML_v1/Python_Scripts/get_preprocessed_data.py:279-281 | `set(range(0, n)) - set(neglect)`: positions of 0 .. n-1 not neglected |
| Outliers.KeepPartition | EGS/GeoDT_ML_v1/Python_Scripts/get_preprocessed_data.py:279-281 | neglected and kept positions are disjoint and make up 0 .. n-1; a position is kept exactly when its own split's NPV is above -1 |
| Outliers.KeptRowsSelected | EGS/GeoDT_ML_v1/Python_Scripts/get_dnn_results_mpi4py.py:262-268 | listed in any order, the kept positions select each kept row once, and every selected NPV is above -1 |
| Outliers.KeptBeyondRows | EGS/GeoDT_ML_v1/Python_Scripts/get_dnn_results_mpi4py.py:262 | filtering against a count larger than the split keeps a position past its last row, and the selection raises IndexError |
| Outliers.DistinctCard | EGS/GeoDT_ML_v1/Python_Scripts/get_dnn_results_mpi4py.py:263 | `np.array(list(set))` has one entry per set element |
| Outliers.AlignedSelection | EGS/GeoDT_ML_v1/Python_Scripts/get_dnn_results_mpi4py.py:266-272 | targets and features indexed with the same list succeed or fail together, and row j of each comes from the same source row |
| Outliers.ZeroBased | EGS/GeoDT_ML_v1/Python_Scripts/get_preprocessed_data.py:137 | `index_list - 1`: every 1-based ID becomes its 0-based row |
| Outliers.Gather | EGS/GeoDT_ML_v1/Python_Scripts/get_preprocessed_data.py:137-151 | `x[index_list-1,:]`: succeeds exactly when every id-1 is a valid numpy index (1-n .. n), then one row per id, row j being row id-1, counted from the end when negative |
| Outliers.GatherRows | EGS/GeoDT_ML_v1/Python_Scripts/get_preprocessed_data.py:137-151 | with IDs in 1 .. n the gather succeeds with one row per ID, row r being source row ids[r]-1 |
| Outliers.GatherOutOfRange | EGS/GeoDT_ML_v1/Python_Scripts/get_preprocessed_data.py:145 | an ID above n raises IndexError |
| Outliers.GatherIdZeroWraps | EGS/GeoDT_ML_v1/Python_Scripts/get_preprocessed_data.py:149 | ID 0 is not rejected: index -1 selects the last row |
| Outliers.GatherSplit | EGS/GeoDT_ML_v1/Python_Scripts/get_preprocessed_data.py:137-151 | `x[index_list-1,:]` applied with one index list to p, hpro, pout and npv; SplitAligned proves the four gathers succeed with equal length and row r of each is realization ids[r] |
| Outliers.SplitAligned | EGS/GeoDT_ML_v1/Python_Scripts/get_preprocessed_data.py:137-151 | p, hpro, pout and npv gathered with one list have equal length, and row r of all four is realization ids[r] |
| Splits.Clamp | EGS/GeoDT_ML_v1/Python_Scripts/get_train_val_test_splits.py:33 | Python's slice bound normalisation stays within 0 .. n and keeps a bound already there |
| Splits.Slice | EGS/GeoDT_ML_v1/Python_Scripts/get_train_val_test_splits.py:31-33 | `xs[lo:hi]` with in-range bounds is the hi-lo entries from lo on |
| Splits.GetSplits | EGS/GeoDT_ML_v1/Python_Scripts/get_train_val_test_splits.py:31-33 | each of the three lists is drawn from the shuffled list without duplication (multiset inclusion) and the training list has min(num_train, n) entries; SplitsConcat gives the concatenation |
| Splits.SplitsConcat | EGS/GeoDT_ML_v1/Python_Scripts/get_train_val_test_splits.py:22-47 | train + val + test is the shuffled list; their sizes are min(num_train, n), the next num_val that remain and the rest, whatever num_test is |
| Splits.ShuffleFacts | EGS/GeoDT_ML_v1/Python_Scripts/get_train_val_test_splits.py:28-29 | a shuffle of 1 .. num_realz has num_realz entries, no repetitions, and holds exactly 1 .. num_realz |
| Splits.SlicesDisjoint | EGS/GeoDT_ML_v1/Python_Scripts/get_train_val_test_splits.py:31-33 | slices of a repetition-free list at non-overlapping positions share no element |
| Splits.ElemsConcat | EGS/GeoDT_ML_v1/Python_Scripts/get_train_val_test_splits.py:31-33 | the elements of the three pieces together are those of their concatenation |
| Splits.SplitsPartition | EGS/GeoDT_ML_v1/Python_Scripts/get_train_val_test_splits.py:31-33 | the three pieces are pairwise disjoint and together are 1 .. num_realz; when the counts fit, test has num_realz - num_train - num_val entries |
| Splits.TrainPrefixes | EGS/GeoDT_ML_v1/Python_Scripts/get_train_val_test_splits.py:69-73 | one reduced training set per size 204, 408, 816, 1632, 2446 |
| Splits.PrefixesNested | EGS/GeoDT_ML_v1/Python_Scripts/get_train_val_test_splits.py:69-73 | each reduced set is a prefix of the training list and of every larger reduced set, of exactly its nominal size when the list is long enough |
| Mixup.Prepend | EGS/GeoDT_ML_v1/Python_Scripts/get_mixup.py:47-48 | putting the first element in front of every tuple of the rest |
| Mixup.Comb | EGS/GeoDT_ML_v1/Python_Scripts/get_mixup.py:46-48 | every tuple has k entries, strictly increasing, all within lo .. hi-1 |
| Mixup.UniquePairs | EGS/GeoDT_ML_v1/Python_Scripts/get_mixup.py:40-50 | `combinations(range(n), k)`: every tuple has k strictly increasing entries from 0 .. n-1, and there are C(n, k) of them, none when k > n |
| Mixup.CombComplete | EGS/GeoDT_ML_v1/Python_Scripts/get_mixup.py:47-48 | every strictly increasing k-tuple of lo .. hi-1 is listed |
| Mixup.TailAbove | EGS/GeoDT_ML_v1/Python_Scripts/get_mixup.py:47 | after a first entry lo, the rest of an increasing tuple lies above lo |
| Mixup.AllAbove | EGS/GeoDT_ML_v1/Python_Scripts/get_mixup.py:47 | an increasing tuple whose first entry is not lo lies above lo |
| Mixup.TakeListed | EGS/GeoDT_ML_v1/Python_Scripts/get_mixup.py:48 | a tuple starting with lo whose tail is a listed (k-1)-tuple is listed |
| Mixup.PrependListed | EGS/GeoDT_ML_v1/Python_Scripts/get_mixup.py:48 | a tuple led by the first element is among the tuples that take it |
| Mixup.CombOrdered | EGS/GeoDT_ML_v1/Python_Scripts/get_mixup.py:47-48 | tuples come out in strictly increasing lexicographic order |
| Mixup.LexLessIrreflexive | EGS/GeoDT_ML_v1/Python_Scripts/get_mixup.py:48 | no tuple comes before itself |
| Mixup.CombDistinct | EGS/GeoDT_ML_v1/Python_Scripts/get_mixup.py:40-50 | no k-subset is listed twice |
| Mixup.CombCount | EGS/GeoDT_ML_v1/Python_Scripts/get_mixup.py:42-45 | there are C(hi-lo, k) tuples, by Pascal's rule |
| Mixup.BinomOne | EGS/GeoDT_ML_v1/Python_Scripts/get_mixup.py:44 | C(n, 1) = n |
| Mixup.BinomTwo | EGS/GeoDT_ML_v1/Python_Scripts/get_mixup.py:106 | C(n, 2) = n(n-1)/2 |
| Mixup.BinomAboveN | EGS/GeoDT_ML_v1/Python_Scripts/get_mixup.py:44 | C(n, k) = 0 when k > n |
| Mixup.PairCount | EGS/GeoDT_ML_v1/Python_Scripts/get_mixup.py:103-106 | n realizations give n(n-1)/2 pairs, and asking for more entries per tuple than realizations gives none |
| Mixup.MixupTwoSamples | EGS/GeoDT_ML_v1/Python_Scripts/get_mixup.py:21-33 | lam is 0.5 whatever alpha and beta are, so each mixed entry is the average of the two samples' entries |
| Ranking.Insert | EGS/GeoDT_ML_v1/Python_Scripts/get_ftest_mi_npv.py:118 | inserting a feature into a ranking adds exactly that feature and stays within the features |
| Ranking.InsertBounded | EGS/GeoDT_ML_v1/Python_Scripts/get_ftest_mi_npv.py:118 | inserting keeps every score under a bound the feature and the ranking respect |
| Ranking.InsertSorted | EGS/GeoDT_ML_v1/Python_Scripts/get_ftest_mi_npv.py:118 | inserting into a descending ranking gives a descending ranking |
| Ranking.ConsSorted | EGS/GeoDT_ML_v1/Python_Scripts/get_ftest_mi_npv.py:118 | a feature scoring at least every later one can lead a descending ranking |
| Ranking.RankPrefix | EGS/GeoDT_ML_v1/Python_Scripts/get_ftest_mi_npv.py:118 | the first n features, ranked: a permutation of 0 .. n-1 by non-increasing score |
| Ranking.RankStep | EGS/GeoDT_ML_v1/Python_Scripts/get_ftest_mi_npv.py:118 | inserting feature n-1 into a ranking of the first n-1 ranks the first n |
| Ranking.ArgsortDesc | EGS/GeoDT_ML_v1/Python_Scripts/get_ftest_mi_npv.py:118 | `argsort()[::-1]` is a permutation of 0 .. n-1 along which the scores do not increase |
| Ranking.SortedScores | EGS/GeoDT_ML_v1/Python_Scripts/get_ftest_mi_npv.py:118-119 | `mi_npv[ids]` is non-increasing, holds the same scores as mi_npv, and position j is the score of feature ids[j] |
| Ranking.CoReordered | EGS/GeoDT_ML_v1/Python_Scripts/get_ftest_mi_npv.py:120-122 | labels and F-test scores reordered with the same ranking keep each entry with its feature, losing or duplicating none |
| Ranking.BorrowedRankingNotSorted | EGS/GeoDT_ML_v1/Python_Scripts/get_ftest_mi_others.py:206 | reordering a second target with the first target's ranking need not sort it: [0.5, 1.0] stays ascending under the ranking of [1.0, 0.5] |
| Importance.NanPositions | EGS/GeoDT_ML_v1/Python_Scripts/get_ftest_mi_npv.py:111 | `np.argwhere(np.isnan(f))[:, 0]`: exactly the NaN positions, ascending |
| Importance.AssignZero | EGS/GeoDT_ML_v1/Python_Scripts/get_ftest_mi_npv.py:112-113 | `f[ind] = 0` on a copy: listed positions become 0, all others unchanged |
| Importance.NanToZero | EGS/GeoDT_ML_v1/Python_Scripts/get_ftest_mi_npv.py:111-113 | same length as the scores; every NaN F-statistic becomes 0 and every other score is kept |
| Importance.MaxOf | EGS/GeoDT_ML_v1/Python_Scripts/get_ftest_mi_npv.py:115 | `np.max` raises ValueError exactly on an empty array, and otherwise bounds every entry |
| Importance.MaxAttained | EGS/GeoDT_ML_v1/Python_Scripts/get_ftest_mi_npv.py:116 | the maximum is one of the entries |
| Importance.Normalise | EGS/GeoDT_ML_v1/Python_Scripts/get_ftest_mi_npv.py:115-116 | `x / np.max(x)` fails exactly on an empty array or a zero maximum; otherwise each result entry times the maximum is the original entry |
| Importance.Divide | EGS/GeoDT_ML_v1/Python_Scripts/get_ftest_mi_npv.py:115 | every entry divided by m; multiplying back by m restores it |
| Importance.NormaliseBounds | EGS/GeoDT_ML_v1/Python_Scripts/get_ftest_mi_npv.py:115-116 | for non-negative scores, normalising fails exactly when all are zero; otherwise every result lies in 0 .. 1 and some feature scores exactly 1 |
| Importance.SetColumn | EGS/GeoDT_ML_v1/Python_Scripts/get_ftest_mi_others.py:54-55 | `arr[:, c] = v`: column c takes v and every other entry is unchanged |
| Importance.FillScores | EGS/GeoDT_ML_v1/Python_Scripts/get_ftest_mi_others.py:38-57 | the matrix is num_params x num_ts, column 0 stays zero, column c >= 1 holds the score of the features against target column c; a score vector of the wrong length is an error |
| Importance.Flatten | EGS/GeoDT_ML_v1/Python_Scripts/get_ftest_mi_others.py:176 | every matrix entry is among the values `np.max` looks at |
| Importance.FlattenFrom | EGS/GeoDT_ML_v1/Python_Scripts/get_ftest_mi_others.py:177 | every value `np.max` looks at is an entry of the matrix |
| Importance.NormaliseMatrix | EGS/GeoDT_ML_v1/Python_Scripts/get_ftest_mi_others.py:176-177 | dividing by the global maximum keeps one row per feature |
| Importance.MaxNonNeg | EGS/GeoDT_ML_v1/Python_Scripts/get_ftest_mi_others.py:176 | a non-zero maximum of a non-negative matrix is positive |
| Importance.ScaledMatrix | EGS/GeoDT_ML_v1/Python_Scripts/get_ftest_mi_others.py:197-198 | each entry divided by a positive bound lies in 0 .. 1 and times the bound is the original |
| Importance.NormaliseMatrixBounds | EGS/GeoDT_ML_v1/Python_Scripts/get_ftest_mi_others.py:176-177 | for non-negative scores the normalised matrix has the shape of the original, and every entry is in 0 .. 1 and equals the original divided by one common positive maximum |
| Importance.SumNonNeg | EGS/GeoDT_ML_v1/Python_Scripts/get_ftest_mi_others.py:179 | a row sum of non-negative scores is non-negative |
| Importance.RowSums | EGS/GeoDT_ML_v1/Python_Scripts/get_ftest_mi_others.py:180 | `np.sum(arr, axis = 1)`: one total per feature, of its row |
| Importance.Aggregate | EGS/GeoDT_ML_v1/Python_Scripts/get_ftest_mi_others.py:179-180 | fails exactly when there are no features or the largest row sum is 0; otherwise one value per feature, its row sum divided by the largest row sum |
| Importance.AggregateTopIsOne | EGS/GeoDT_ML_v1/Python_Scripts/get_ftest_mi_others.py:179-180 | for non-negative scores each feature's aggregate lies in 0 .. 1 and the top feature scores exactly 1 |
| Importance.RankByMi | EGS/GeoDT_ML_v1/Python_Scripts/get_ftest_mi_npv.py:109-122 | the NPV script end to end: it fails exactly when either score vector cannot be normalised; otherwise the ranking is a descending ranking of the normalised MI scores, the sorted MI scores do not increase, and position j of the sorted MI scores, labels and F-test scores all belong to feature ids[j] |
| Importance.ScoreTarget | EGS/GeoDT_ML_v1/Python_Scripts/get_ftest_mi_others.py:175-180 | one target of the time-series script keeps one matrix row per feature after normalisation |
| Importance.ScoreTargetBounds | EGS/GeoDT_ML_v1/Python_Scripts/get_ftest_mi_others.py:176-180 | for non-negative raw scores every normalised matrix entry and every aggregate lies in 0 .. 1, with one aggregate per feature, and the top feature of each aggregate scores exactly 1 |
| Importance.SharedRanking | EGS/GeoDT_ML_v1/Python_Scripts/get_ftest_mi_others.py:185-231 | for any descending ranking of the hpro aggregate, the hpro scores come out non-increasing; the pout scores, dhout matrix rows and labels reordered with it keep every feature's entries together and lose none |

## Left out

- MPI transport. `comm.send` and `comm.recv` (get_dnn_results_mpi4py.py:454-479) are recorded as `Message` values. Only the root's loop is modelled.
- Keras model building, training, prediction, `CSVLogger` and the plotting functions. These are foreign library calls over floating point.
- sklearn scalers, `pickle`, `np.save`/`np.savetxt`/`np.genfromtxt`/`read_csv`, `os.makedirs` and the `glob` count of record files (get_dir_hp_dnn_we.py:249). These are file-system and library I/O. The created folders appear only as the set `Folders()`.
- The random generator. `np.random.seed`/`np.random.shuffle` are replaced by a shuffled list that is an input (any permutation of 1 .. num_realz). Because `GetSplits` is a function, the same permutation always gives the same split.
- `f_regression` and `mutual_info_regression`. They are a score function parameter of `Importance.FillScores`, and `Importance.NanPositions` takes their output as input.
- Floating-point formatting. The dropout, alpha and learning-rate values are kept as the text `str()` prints for them, and `float()` of that text is not modelled. The round trip is stated for these fields as tokens.
- Floating point itself. Scores are `real`s. Rounding of the division by the maximum, infinities and NaN propagation are not modelled: a zero maximum is reported as an error instead of producing NaN or infinity.
- Importance.MaxOf: a NaN among the scores would make `np.max` return NaN. get_ftest_mi_others.py does not substitute NaNs, so its scores are taken as plain reals.
- Importance.FillScores: a score vector of length 1 would broadcast into the column in numpy, but here any length other than num_params is an error.
- Mixup arithmetic beyond the weight. The two-sample mix is stated over `real` sequences of equal length; numpy broadcasting of unequal shapes is not modelled.
- Splits.SplitsConcat: negative counts are not covered. Python would read a negative bound from the end.
- Ranking.ArgsortDesc: numpy's default sort fixes no order for equal scores. `ArgsortDesc` computes one descending ranking, and every stated property (`SortedScores`, `CoReordered`, `SharedRanking`) holds for any permutation satisfying `DescendingRanking`.
- Outliers.KeptRowsSelected: the order of `list(set(...))` is unspecified in Python. The model claims only that the kept list enumerates the kept set, in any order.
- HpGrid.SelfTest: the parser is a parameter. `SelfTestPasses` instantiates it with `HpRecord.ParseRecord`. The printing of each parsed line (get_dir_hp_dnn_we.py:239-243) is output only.
- The training job reads its record from folder `1_InvDNNModel_ss_th` (get_dnn_results_mpi4py.py:192), while the generator writes `1_InvDNNModel_ss_we`. Only the folder numbers are related (`WorkPartition.TrainedFoldersGenerated`). The directory prefix is not modelled.
- get_ftest_mi_others.py:152-153 loads `hpro_geodt` from the pout table and `pout_geodt` from the hpro table. Arrays are modelled by role, and the swap is not corrected. `Ranking.BorrowedRankingNotSorted` shows that the borrowed ranking need not sort the other targets.
- get_inp_out.py is not part of this model. It only slices CSV columns with pandas.
- Dead code is not modelled:
  - the triple-quoted block at get_preprocessed_data.py:366-942;
  - the main block of get_mixup.py, which reads an undefined `df_hpro` at line 83;
  - the commented-out normalisation by the sum at get_ftest_mi_others.py:182-183.
- Best-epoch selection with NaN validation losses (pandas would skip them in `min()`). The log is a list of rows with real losses.
- Text.ParseInt: decimal digits outside ASCII (Arabic-Indic, fullwidth and the like), which int() also accepts, are not modelled. The records hold ASCII digits only.
- Text.ParseInt: the interpreter's limit on integer/string conversion (4300 decimal digits by default, `sys.int_info.default_max_str_digits`) is not modelled. Past it, int() raises ValueError on a valid literal, so the model's success condition is exact only for literals of up to 4300 digits. The record values have at most 5 digits.
- Text.IntToString: str(i) also raises ValueError when i has more than 4300 decimal digits; the model prints every integer.
- Text.ParseIntToString: int(str(i)) == i holds in Python only for integers of up to 4300 digits, since str() and int() both raise past the limit; the record values stay far below it.
- Text.ParseBlankIntToString: the same 4300-digit limit applies to int(" " + str(i)).
- HpGrid.Store: when num_models exceeds the list, the source has written the first files before IndexError is raised. The model returns the error without those writes. TierCounts proves num_models equals the list length in every tier, so the generator never takes this path.
