# Breast-cancer scorer and batch runner, in Dafny

This project models the prediction core of the Breast-Cancer-detection web application.

- **The scorer** (`predictBreastCancer`) takes a patient record with ten tumour measurements (the mean and worst radius, texture, perimeter, area and smoothness). It normalises each measurement against fixed training statistics, forms a weighted sum, and passes it through the logistic function. A probability above one half means `Malignant`. It also returns a confidence, and the measurements' importances sorted from most to least important.
- **The batch runner** (`processBatchPrediction`) reads CSV text. It requires a header and at least one data row, and it rejects a header that lacks a measurement column. It skips rows whose field count is wrong, builds a record from each remaining row, and scores it.
- **The results page** offers a CSV export of a run and shows the Benign and Malignant counts.

Modules, one per concern of the source:

- `Numbers`: JavaScript numbers as exact reals plus NaN, with NaN propagating.
- `Wrappers`: `Option` and `Result`.
- `Text`: the string functions the source uses:
  - `trim` (with the JavaScript whitespace set), `split` on one character and `join`;
  - `indexOf` on a list;
  - decimal rendering of a natural number.
- `Types`: `PatientData`, `PredictionResult`, `FeatureImportance`, and the measurement keys.
- `FeatureNames`: the display name of a measurement key, `key.replace(/([A-Z])/g, ' $1').toLowerCase().replace(/^./, toUpperCase)`.
- `ImportanceSort`: `features.sort((a, b) => b.importance - a.importance)`. It is an in-place insertion sort on an array, proved equal to a functional stable insertion sort.
- `MlModel`: the weights, the statistics, `normalizeFeature` and `predictBreastCancer`. The score loop and the sort are methods; each is proved equal to the function that specifies it.
- `BatchPrediction`: the parsing and row loop of `processBatchPrediction`. The row loop is a method with a loop invariant; the whole run is proved equal to `Process`.
- `BatchReport`: the CSV export and the label counts.

Things taken from the JavaScript environment are parameters:

- `Math.exp` enters as a sigmoid function constrained by `MlModel.IsSigmoid`: values in (0, 1), one half at 0, strictly increasing, and within a quarter of `|x|` of one half (|σ(x) − ½| ≤ |x|/4).
- `parseFloat`, `parseInt` and `Date.now()` are fields of `BatchPrediction.Environment`. The clock is the value `Date.now()` returns while row `i` is built.
- `toFixed(4)` and the default rendering of the age are fields of `BatchReport.Formatter`.

What the code does that one might not expect; the model follows the code:

- Display names of the feature list are sentence case ("Mean radius"), while the home page's static importance chart and the PDF report label the same measurement "Mean Radius" (`project/src/components/HomePage.tsx:18`, `project/src/utils/pdfGenerator.ts:75`).
- A cell that does not parse as a number is not a row error. It becomes NaN, and NaN makes the score NaN. The prediction is then `Benign` with NaN probability and confidence (`MlModel.UnmeasuredIsBenign`).
- The exported CSV has no measurement columns, so it cannot be fed back to the batch runner: doing so always fails (`BatchReport.ReingestFails`).
- Skipped rows are numbered by their position among the non-blank lines, not by their line in the file.

## Model

| member | source | states |
|---|---|---|
| MlModel.Mean | project/src/utils/mlModel.ts:18-29 | the training mean of each measurement, as in the statistics table |
| MlModel.Contribution | project/src/utils/mlModel.ts:54 | one measurement's term of the score, its normalised value times its weight; NaN exactly when the measurement is NaN |
| MlModel.Score | project/src/utils/mlModel.ts:52-55 | the score: the ten terms added to 0 one at a time in key order (the specification of `ComputeScore`) |
| MlModel.IsSigmoid | project/src/utils/mlModel.ts:58 | what the model assumes of `1 / (1 + Math.exp(-x))`: values strictly between 0 and 1, one half at 0, strictly increasing, and never farther from one half than a quarter of the distance of x from 0 |
| MlModel.ImportanceEntry | project/src/utils/mlModel.ts:70-78 | one measurement's feature entry: its display name, the magnitude of its score term (`Math.abs(z * w)`) and its raw value |
| MlModel.EntryImportance | project/src/utils/mlModel.ts:67-78 | the `map` callback: nothing for `id`, `name` and `age`, the measurement's entry for every other key |
| MlModel.Importances | project/src/utils/mlModel.ts:67-79 | the feature list before sorting: the callback over the record's keys in declaration order, the absent entries filtered out |
| MlModel.Prediction | project/src/utils/mlModel.ts:58-89 | the result of `predictBreastCancer`: Malignant when the sigmoid of the score exceeds one half; the probability of the chosen label (`1 − p` for Benign); confidence `Math.abs(p - 0.5) * 2`; the feature list sorted by `SortByImportance` (the specification of `PredictBreastCancer`) |
| ImportanceSort.Precedes | project/src/utils/mlModel.ts:82 | the comparator `b.importance - a.importance` asks for `x` before `y`: `x` has the strictly larger importance; never when either is NaN |
| ImportanceSort.Insert | project/src/utils/mlModel.ts:82 | one insertion step: the new entry moves left past exactly the entries it precedes |
| ImportanceSort.SortByImportance | project/src/utils/mlModel.ts:82 | the stable insertion sort of the feature list (the specification of `SortFeatures`) |
| FeatureNames.SpaceBeforeCapitals | project/src/utils/mlModel.ts:75 | `replace(/([A-Z])/g, ' $1')`: a space before every ASCII capital |
| FeatureNames.DisplayName | project/src/utils/mlModel.ts:75 | the display name of a key: spaces before capitals, then lower case, then the first character upper-cased |
| Types.Key | project/src/types/index.ts:5-14 | the property key of each measurement, which is also its CSV column name |
| Text.IsWhitespace | project/src/components/BatchPredictionPage.tsx:34 | the characters `trim` removes: the ECMAScript white-space and line-terminator characters |
| Text.Trim | project/src/components/BatchPredictionPage.tsx:34 | `trim`: leading whitespace removed, then trailing whitespace |
| Text.Join | project/src/components/BatchPredictionPage.tsx:48 | `join(sep)`: the pieces with the separator between consecutive ones |
| Text.NatToString | project/src/components/BatchPredictionPage.tsx:62 | the decimal rendering of a natural number in a template literal: non-empty and all digits |
| BatchPrediction.NonBlank | project/src/components/BatchPredictionPage.tsx:34 | `filter(line => line.trim())`: the lines that are not whitespace only, in order |
| BatchPrediction.Lines | project/src/components/BatchPredictionPage.tsx:34 | the file split on `\n`, blank lines dropped |
| BatchPrediction.Fields | project/src/components/BatchPredictionPage.tsx:40 | a line split on `,` with each field trimmed, for the header (line 40) and every data row (line 54) |
| BatchPrediction.Missing | project/src/components/BatchPredictionPage.tsx:46 | the required columns absent from the header, in the required order |
| BatchPrediction.Measure | project/src/components/BatchPredictionPage.tsx:65-74 | one measurement of a row: `parseFloat` of its column's cell, NaN when the column is absent |
| BatchPrediction.NonEmpty | project/src/components/BatchPredictionPage.tsx:62-64 | the truthy case of the `or` default of lines 62-64: a cell that exists and is not empty |
| BatchPrediction.Entry | project/src/components/BatchPredictionPage.tsx:77-78 | one scored row: the record built from data row `i` paired with that record's prediction |
| BatchPrediction.RunRows | project/src/components/BatchPredictionPage.tsx:53-79 | the loop's results and skipped numbers after rows `1 .. n − 1`: a wrong-width row adds its number `i + 1`, any other row adds its entry (the specification of `ProcessRows`) |
| BatchPrediction.Process | project/src/components/BatchPredictionPage.tsx:33-81 | a whole run: the too-few-lines error, else the missing-columns error, else the loop's outcome (the specification of `ProcessBatchPrediction`) |
| BatchReport.LabelText | project/src/components/BatchPredictionPage.tsx:93 | the label as written in the export, `Benign` or `Malignant` |
| BatchReport.AgeText | project/src/components/BatchPredictionPage.tsx:93 | the age cell of line 93: nothing for an absent, NaN or zero age, otherwise its rendering |
| BatchReport.ExportFields | project/src/components/BatchPredictionPage.tsx:93 | the six cells of a result's line: id, the name in double quotes, age, label, and probability and confidence to four places |
| BatchReport.ExportRow | project/src/components/BatchPredictionPage.tsx:93 | a result's export line: its six cells joined by commas |
| BatchReport.ExportCsv | project/src/components/BatchPredictionPage.tsx:90-95 | the downloaded text: the export lines joined by `\n` |
| MlModel.Weight | project/src/utils/mlModel.ts:4-15 | every model weight is positive |
| MlModel.Std | project/src/utils/mlModel.ts:18-29 | every feature's standard deviation is positive, so normalising never divides by zero |
| MlModel.NormalizeFeature | project/src/utils/mlModel.ts:31-34 | the result is finite exactly when the value is, and it is the z-score: mean + z·std recovers the value |
| MlModel.NormalizeIncreasing | project/src/utils/mlModel.ts:31-34 | normalisation is strictly increasing in the value |
| MlModel.NormalizeMeanIsZero | project/src/utils/mlModel.ts:31-34 | the training mean normalises to 0 |
| MlModel.ScoreAfter | project/src/utils/mlModel.ts:52-55 | the partial score over the first n measurements is finite exactly when each of those measurements is finite |
| MlModel.ScoreFiniteIff | project/src/utils/mlModel.ts:52-55 | the score is finite exactly when all ten measurements are finite (one NaN poisons the sum) |
| MlModel.ComputeScore | project/src/utils/mlModel.ts:52-55 | the accumulating loop returns the specified score |
| MlModel.ScoreIsWeightedSum | project/src/utils/mlModel.ts:38-55 | for a fully measured record, the score is the dot product of the normalised vector with the weights |
| MlModel.PrefixIsWeightedSum | project/src/utils/mlModel.ts:52-55 | after k iterations, the running score is the dot product over the first k measurements |
| MlModel.DotAdd | project/src/utils/mlModel.ts:52-55 | the weighted sum is additive in the vector |
| MlModel.DotScale | project/src/utils/mlModel.ts:52-55 | the weighted sum is homogeneous in the vector |
| MlModel.ContributionMonotone | project/src/utils/mlModel.ts:54 | a larger measurement never lowers its term of the score, because weights and deviations are positive |
| MlModel.ScoreMonotone | project/src/utils/mlModel.ts:38-55 | a record that is at least as large in every measurement scores at least as high |
| MlModel.RawProbability | project/src/utils/mlModel.ts:58 | the probability is finite exactly when the score is |
| MlModel.Importance | project/src/utils/mlModel.ts:70-72 | an importance is finite exactly when its measurement is; it is non-negative and is the magnitude of that measurement's score term |
| MlModel.KeepPresent | project/src/utils/mlModel.ts:79 | the filter never lengthens the list |
| MlModel.SkipAbsent | project/src/utils/mlModel.ts:68 | a `null` entry (id, name and age) contributes nothing to the feature list |
| MlModel.KeepPresentAllSome | project/src/utils/mlModel.ts:79 | when every entry is present, the filter keeps all of them, in order |
| MlModel.ImportancesPerFeature | project/src/utils/mlModel.ts:67-79 | before sorting, the feature list has exactly one entry per measurement, in key order, each with its display name, importance and raw value |
| MlModel.ImportancesNamesDistinct | project/src/utils/mlModel.ts:67-79 | no two unsorted feature entries share a display name |
| MlModel.PermutationKeepsNamesDistinct | project/src/utils/mlModel.ts:82 | reordering a list whose names are distinct keeps them distinct |
| MlModel.PredictBreastCancer | project/src/utils/mlModel.ts:36-90 | the method (score loop, then in-place sort of a feature array) returns the specified prediction |
| MlModel.LabelRule | project/src/utils/mlModel.ts:58-61 | the verdict is Malignant if and only if the probability exceeds one half, if and only if the score is positive |
| MlModel.BoundaryIsBenign | project/src/utils/mlModel.ts:58-64 | a score of exactly 0 gives Benign with probability 0.5 and confidence 0 |
| MlModel.ReportedProbabilityBounds | project/src/utils/mlModel.ts:58-86 | probability and confidence are finite exactly when the record is fully measured; the reported probability (that of the chosen label) is in [0.5, 1), the confidence in [0, 1), and confidence = 2·probability − 1 |
| MlModel.UnmeasuredIsBenign | project/src/utils/mlModel.ts:58-86 | a record with any NaN measurement is Benign, with NaN probability and NaN confidence |
| MlModel.FeatureListShape | project/src/utils/mlModel.ts:67-89 | the returned feature list is a permutation of the ten measurement entries, with distinct names, and each entry is some measurement's entry |
| MlModel.FeatureListOrder | project/src/utils/mlModel.ts:82-88 | for a fully measured record, the list is in non-increasing importance, and entries of equal importance keep their key order (stability) |
| MlModel.ConfidenceNearBoundary | project/src/utils/mlModel.ts:58-64 | the confidence is at most half the score's distance from zero |
| MlModel.DotHalves | project/src/utils/mlModel.ts:52-55 | the ten-term weighted sum splits into the mean terms and the worst terms |
| MlModel.NearMeanSampleMeanTerms | project/src/utils/mlModel.ts:4-34 | for the near-mean sample row, the five mean terms sum to between −0.0108 and −0.0104 |
| MlModel.NearMeanSampleWorstTerms | project/src/utils/mlModel.ts:4-34 | for the near-mean sample row, the five worst terms sum to between −0.0075 and −0.0071 |
| MlModel.NearMeanSampleScore | project/src/utils/mlModel.ts:36-55 | the near-mean sample row's score lies strictly between −0.02 and 0 |
| MlModel.NearMeanSampleIsBenign | project/src/utils/mlModel.ts:36-90 | the near-mean sample row is Benign, with confidence below 0.01 |
| FeatureNames.ToLower | project/src/utils/mlModel.ts:75 | lowercasing keeps the length |
| FeatureNames.CapitalizeFirst | project/src/utils/mlModel.ts:75 | `replace(/^./, toUpperCase)` keeps the length and the tail, and uppercases the first character unless it is a line terminator |
| FeatureNames.ToLowerAppend | project/src/utils/mlModel.ts:75 | lowercasing distributes over concatenation |
| FeatureNames.ToLowerIdempotent | project/src/utils/mlModel.ts:75 | lowercasing twice is lowercasing once |
| FeatureNames.RemoveSpacesAppend | project/src/utils/mlModel.ts:75 | removing spaces distributes over concatenation |
| FeatureNames.SpaceBeforeCapitalsAppend | project/src/utils/mlModel.ts:75 | the global replace distributes over concatenation |
| FeatureNames.SpacesAreInserted | project/src/utils/mlModel.ts:75 | the replace only inserts spaces, one per capital: removing spaces undoes it |
| FeatureNames.LowerCommutesWithRemoveSpaces | project/src/utils/mlModel.ts:75 | lowercasing and removing spaces commute |
| FeatureNames.DisplayNameRecoversKey | project/src/utils/mlModel.ts:75 | with its spaces removed and lowercased, the display name of a space-free key is the lowercased key; it is one character longer per capital |
| FeatureNames.NoCapitalsUnchanged | project/src/utils/mlModel.ts:75 | a string without capitals is left alone by both the replace and the lowercasing |
| FeatureNames.DisplayNameOfTwoWords | project/src/utils/mlModel.ts:75 | a lower-case word followed by a capitalised lower-case word is shown as the first word capitalised, a space, and the second word lowercased |
| FeatureNames.DisplayNameOfMeanRadius | project/src/utils/mlModel.ts:75 | `meanRadius` is shown as "Mean radius" |
| FeatureNames.DisplayNameOfWorstSmoothness | project/src/utils/mlModel.ts:75 | `worstSmoothness` is shown as "Worst smoothness" |
| FeatureNames.DisplayNameOfKey | project/src/utils/mlModel.ts:75 | every measurement key is shown under its sentence-case name from the table `ShownName` |
| FeatureNames.DisplayNamesDistinct | project/src/utils/mlModel.ts:75 | different measurements get different display names |
| ImportanceSort.InsertPermutes | project/src/utils/mlModel.ts:82 | one insertion step adds exactly the inserted entry |
| ImportanceSort.SortPermutes | project/src/utils/mlModel.ts:82 | sorting is a permutation |
| ImportanceSort.SortFeatures | project/src/utils/mlModel.ts:82 | the in-place sort leaves the array holding the specified stable sort of its old contents |
| ImportanceSort.InsertAt | project/src/utils/mlModel.ts:82 | shifting one array element left into the sorted prefix yields the specified insertion and leaves the rest of the array alone |
| ImportanceSort.SortIsStable | project/src/utils/mlModel.ts:82 | for every importance value, the entries with that importance keep their relative order |
| ImportanceSort.SortOrders | project/src/utils/mlModel.ts:82 | when every importance is finite, the result is in descending order of importance |
| ImportanceSort.StableSortIsUnique | project/src/utils/mlModel.ts:82 | two descending orderings that agree on the order of each importance class are equal |
| ImportanceSort.AnyStableSortAgrees | project/src/utils/mlModel.ts:82 | any stable descending sort of finite importances (such as the engine's) gives the model's result |
| Text.TrimSpec | project/src/components/BatchPredictionPage.tsx:34 | `trim` returns the slice left after removing leading and trailing whitespace, and that slice neither starts nor ends with whitespace |
| Text.TrimEmptyIffBlank | project/src/components/BatchPredictionPage.tsx:34 | a trimmed line is empty exactly when the line is whitespace only |
| Text.Split | project/src/components/BatchPredictionPage.tsx:34 | `split` yields at least one piece, and no piece holds the separator |
| Text.JoinSplit | project/src/components/BatchPredictionPage.tsx:34 | joining the pieces of a split with the separator gives back the text |
| Text.SplitJoin | project/src/components/BatchPredictionPage.tsx:95 | splitting a join of separator-free pieces gives back the pieces |
| Text.IndexOf | project/src/components/BatchPredictionPage.tsx:62-74 | `indexOf` is −1 exactly when the name is absent, and otherwise the first position holding it |
| Text.DecimalRoundTrip | project/src/components/BatchPredictionPage.tsx:62 | the decimal rendering of a number reads back as that number |
| Text.NatToStringInjective | project/src/components/BatchPredictionPage.tsx:62 | different numbers render differently |
| BatchPrediction.RequiredHeadersAreKeys | project/src/components/BatchPredictionPage.tsx:41-44 | the required columns are exactly the ten measurement keys, in key order |
| BatchPrediction.NonBlankMembers | project/src/components/BatchPredictionPage.tsx:34 | a line is kept exactly when it is one of the lines and is not whitespace only |
| BatchPrediction.NonBlankAppend | project/src/components/BatchPredictionPage.tsx:34 | the filter distributes over concatenation, so order is kept |
| BatchPrediction.MissingMembers | project/src/components/BatchPredictionPage.tsx:46 | a column is reported missing exactly when it is required and not in the header |
| BatchPrediction.MissingAll | project/src/components/BatchPredictionPage.tsx:46 | a header with none of the required columns reports all of them, in order |
| BatchPrediction.MissingNone | project/src/components/BatchPredictionPage.tsx:46 | a header with all required columns reports none |
| BatchPrediction.Cell | project/src/components/BatchPredictionPage.tsx:62-74 | a cell exists exactly when the column is in the header and its first position is within the row |
| BatchPrediction.SynthesizedId | project/src/components/BatchPredictionPage.tsx:62 | a synthesized id is non-empty and starts with `P` |
| BatchPrediction.BuildRecord | project/src/components/BatchPredictionPage.tsx:61-75 | every built record has a non-empty id |
| BatchPrediction.RecordMeasurement | project/src/components/BatchPredictionPage.tsx:65-74 | in a row of the header's width, each measurement is `parseFloat` of the cell under its column |
| BatchPrediction.RecordIdentity | project/src/components/BatchPredictionPage.tsx:62-64 | the id is the row's own unless it is absent or empty, in which case it is `P<now>-<i>`; name and age are undefined exactly when absent or empty; a given age is `parseInt` of its cell |
| BatchPrediction.SynthesizedIdsDistinct | project/src/components/BatchPredictionPage.tsx:62 | ids synthesized for different rows differ, whatever the clock returned |
| BatchPrediction.CellPermuted | project/src/components/BatchPredictionPage.tsx:62-74 | with distinct header names, reordering the columns of header and row alike does not change any lookup |
| BatchPrediction.BuildRecordPermuted | project/src/components/BatchPredictionPage.tsx:61-75 | with distinct header names, column order does not affect the record built: reordering header and row alike by a permutation (the helper `Permute`, with its inverse) yields the same record |
| BatchPrediction.ProcessBatchPrediction | project/src/components/BatchPredictionPage.tsx:33-81 | the method returns the specified outcome of the run: an error message or the results and skipped rows |
| BatchPrediction.ProcessRows | project/src/components/BatchPredictionPage.tsx:53-79 | the row loop, with its `continue` on a bad row, returns the specified results and skipped-row numbers |
| BatchPrediction.AcceptedRows | project/src/components/BatchPredictionPage.tsx:53-59 | the scored rows are exactly the data rows of the header's width, in increasing order |
| BatchPrediction.SkippedRows | project/src/components/BatchPredictionPage.tsx:56-58 | the reported row numbers (index + 1) are exactly those of the data rows of the wrong width, in increasing order |
| BatchPrediction.RunRowsSpec | project/src/components/BatchPredictionPage.tsx:53-79 | the loop scores exactly the accepted rows, in order, each from its own record; it reports exactly the skipped ones; every data row is one or the other |
| BatchPrediction.TooFewLinesFail | project/src/components/BatchPredictionPage.tsx:34-38 | fewer than two non-blank lines fail with the header-and-data-row message; any other failure is a missing-columns failure |
| BatchPrediction.MissingColumnsFail | project/src/components/BatchPredictionPage.tsx:40-49 | with two or more lines, the run fails if and only if the header lacks a required column, and the message lists the missing ones after "Missing required columns: " |
| BatchPrediction.OneMissingColumn | project/src/components/BatchPredictionPage.tsx:46-49 | a header lacking exactly one required column names just that column |
| BatchPrediction.SuccessfulRun | project/src/components/BatchPredictionPage.tsx:33-81 | a successful run has every required column; its results are the accepted rows with their records and predictions, in order; its skipped numbers are the rest |
| BatchPrediction.ResultIdsDistinct | project/src/components/BatchPredictionPage.tsx:62 | two scored rows without an id of their own get different ids |
| BatchReport.ExportLines | project/src/components/BatchPredictionPage.tsx:90-94 | the export has the fixed header line, then exactly one line per result, in order |
| BatchReport.RowAvoids | project/src/components/BatchPredictionPage.tsx:93 | a character other than the comma that no cell holds is not in the row's line |
| BatchReport.ExportSplitsIntoLines | project/src/components/BatchPredictionPage.tsx:90-95 | when no cell holds a line break, the file splits back into its header and one line per result |
| BatchReport.ExportRowSplits | project/src/components/BatchPredictionPage.tsx:93 | when no cell holds a comma, a result's line splits back into its six cells, and the fourth is the label |
| BatchReport.ExportHeaderShape | project/src/components/BatchPredictionPage.tsx:91 | the header line is non-blank, one line long, and has no capital letters |
| BatchReport.ExportHeaderLacksRequired | project/src/components/BatchPredictionPage.tsx:91 | none of the export header's fields is a required measurement column |
| BatchReport.ReingestFails | project/src/components/BatchPredictionPage.tsx:33-49 | feeding any export back to the runner fails: with no results, for too few lines; otherwise, whatever the cells hold, for missing all ten measurement columns |
| BatchReport.CommaLineKept | project/src/components/BatchPredictionPage.tsx:34 | text holding a comma keeps at least one line through the split and the blank-line filter |
| BatchReport.CountLabel | project/src/components/BatchPredictionPage.tsx:271-278 | a label count never exceeds the number of results |
| BatchReport.CountsAddUp | project/src/components/BatchPredictionPage.tsx:267-278 | the Benign and Malignant counts add up to the total number of predictions |
| BatchReport.CountAppend | project/src/components/BatchPredictionPage.tsx:271-278 | one more result raises exactly the count of its own label |
| Numbers.Number.Plus | project/src/utils/mlModel.ts:54 | a sum is finite exactly when both operands are, and it is then their real sum |
| Numbers.Number.Abs | project/src/utils/mlModel.ts:64 | `Math.abs` keeps NaN, and a finite result is non-negative and equal to the value or its negation |
| Numbers.Number.Times | project/src/utils/mlModel.ts:54 | multiplying by a constant (`value * weight` here and at line 72, `* 2` at line 64) keeps NaN and is otherwise the real product |
| Numbers.Number.Minus | project/src/utils/mlModel.ts:64 | `probability - 0.5` keeps NaN, and adding the constant back to a finite result gives the value |
| Numbers.Number.SubtractedFrom | project/src/utils/mlModel.ts:86 | `1 - probability` keeps NaN and is otherwise the real difference |
| Numbers.Number.GreaterThan | project/src/utils/mlModel.ts:61 | `probability > 0.5`: true only of a finite number above the constant, false for NaN |
| Numbers.Less | project/src/utils/mlModel.ts:82 | the sign test behind the comparator: `a < b` holds only of two finite numbers, never when either is NaN |
| MlModel.NormalizedVector | project/src/utils/mlModel.ts:38-49 | the `normalizedFeatures` object of a fully measured record as a vector of ten reals in key order |
| Types.PatientKeysOrder | project/src/types/index.ts:1-15 | the keys `Object.entries(data)` lists at mlModel.ts:67, taken in declaration order: id, name, age, then the ten measurements in key order |
| Types.FeaturesEnumerateAll | project/src/types/index.ts:5-14 | every measurement appears in the key list exactly once |

## Left out

- Infinity, −0 and IEEE rounding: a number is an exact real or NaN. The weights, statistics and sample bounds are exact decimals.
- `Math.exp`: the sigmoid is a parameter. The model assumes only the properties in `MlModel.IsSigmoid`, which the logistic function has.
- `parseFloat`, `parseInt`, `Date.now()`, `toFixed(4)` and the default rendering of the age are parameters. The model does not describe their text syntax.
- Case conversion covers ASCII letters only; `toLowerCase` and `toUpperCase` on other scripts are not modelled. Strings are sequences of characters, not UTF-16 code units.
- ImportanceSort.SortFeatures: with a NaN importance the comparator is inconsistent and the engine may return any permutation of the list, stability included. The model fixes the stable insertion order, which an engine need not reproduce. Only the permutation property (`ImportanceSort.SortPermutes`) carries over to the engine in that case.
- `file.text()` (file reading), the `if (!file) return` guard, `console.warn`, the React state setters (`setResults`, `setError`, `setIsProcessing`), and the `Blob`/`URL` download are I/O or UI. The model returns values instead.
- `Object.entries(data)` is taken to list the keys in their declared order: id, name, age, then the ten measurements. The batch runner builds records in that order.
- `getModelMetrics`, `getDatasetInfo`, the PDF report and the other pages are not part of this model.
- BatchPrediction.BuildRecordPermuted: requires distinct header names. With duplicates, `indexOf` picks the first copy, so column order matters.
