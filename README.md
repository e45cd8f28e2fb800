# Sales prediction: data preparation and the prediction form, in Dafny

This project models the deterministic part of a retail sales predictor (the
BigMart item/outlet sales data). It covers two pieces:

- the training notebook's data preparation (`salesprediction.py`):
  - the fat-content label clean-up;
  - the fill of missing outlet sizes from the per-outlet-type mode;
  - outlet age;
  - the two ordinal dictionaries;
  - label encoding;
  - the two-letter identifier prefix;
  - one-hot encoding with the first category dropped;
  - top-k feature selection from an elimination ranking and the choice of the best k;
- the Streamlit app's `predict_sales` (`app.py`), which turns the form's
  choices into the six-entry vector handed to the model.

Modules, one per file:

- `wrappers.dfy` (`Wrappers`): `Option`, used for a missing (NaN) cell.
- `ordering.dfy` (`Ordering`):
  - strict orders;
  - `SortedDistinct`, the sorted distinct values that numpy's `unique` returns and that scikit-learn's encoders use as their classes;
  - `StrLess`, Python's string order, proved to be a strict total order.
- `cleaning.dfy` (`Cleaning`): a frame is an `array<Record>`. The two in-place pandas operations (`replace(..., inplace=True)` and the `.loc` fill) are methods that update the array row by row. Each is proved equal to a function of the old rows, and the properties are lemmas about those functions.
- `encoding.dfy` (`Encoding`): the encoding stage changes the frame's column types, so it is a function from cleaned records to `EncodedRecord`s, under encoders fitted on the same frame.
- `selection.dfy` (`FeatureSelection`):
  - `argsort` over the RFE ranking;
  - the loop that evaluates every number of features;
  - the choice of the best one;
  - the six feature names of the final model.
- `app.dfy` (`App`):
  - the feature vector;
  - the outlet-type select box;
  - the form's bounds;
  - the standard scaling that training applies (see Findings).

Inputs that come from outside the modelled code are parameters:

- the per-outlet-type mode table is a `map<string, string>`;
- the RFE ranking is a `seq<int>`;
- the cross-validation scorer is a function from selected feature indices to `Scores`;
- the scaler means and scales are a map.

The reference year 2024 is the notebook's constant, not a clock reading.

The mode fill applies to the training frame only, as in the notebook; the test frame gets only the fat-content replace.

`pandas.replace` with the ordinal dictionaries leaves an unlisted label as text. The model represents such a label as `None`.

How each source operation is treated:

- **One-hot encoding:** scikit-learn's `OneHotEncoder` raises on a category it was not fitted on. The model therefore requires every encoded value to be one of the fitted categories. A frame is always encoded with encoders fitted on itself, so `FittedEncodersKnowRows` discharges that requirement.
- **Mode-table lookup:** looking up an outlet type that is not in the mode table raises a KeyError before anything is assigned. In `FillOutletSize` this is the `ok == false` outcome, and the frame is left unchanged.

## Model

| member | source | states |
|---|---|---|
| Cleaning.NormalizeFatContentRewrites | salesprediction.py:121-122 | "low fat" and "LF" become "Low Fat" and "reg" becomes "Regular"; a label changes exactly when it is one of those three |
| Cleaning.NormalizeFatContentLabels | salesprediction.py:121-122 | after the rewrite a label is "Low Fat" or "Regular" exactly when it was one of the five spellings |
| Cleaning.FatContentFixesSettle | salesprediction.py:121-122 | no rewritten label is a key of the rewrite dictionary |
| Cleaning.ReplaceIdempotent | salesprediction.py:121-122 | a dictionary replace whose values are not keys is idempotent |
| Cleaning.NormalizeFatContentIdempotent | salesprediction.py:121-122 | rewriting a label twice equals rewriting it once |
| Cleaning.FatContentNormalizedIdempotent | salesprediction.py:121-122 | replacing over a whole frame twice equals doing it once |
| Cleaning.ReplaceFatContent | salesprediction.py:121-122 | the in-place replace leaves every row with its fat-content label rewritten and every other field as it was |
| Cleaning.SizesFilledRows | salesprediction.py:100-102 | a row missing its size gets the mode of its outlet type; a row with a size is unchanged; the row count is kept |
| Cleaning.SizesFilledComplete | salesprediction.py:100-102 | when every missing row's outlet type has a mode entry, no size is missing after the fill |
| Cleaning.SizesFilledIdempotent | salesprediction.py:100-102 | filling an already filled frame changes nothing |
| Cleaning.CanFillSizes | salesprediction.py:102 | the scan answers true exactly when every missing size's outlet type is in the mode table |
| Cleaning.FillOutletSize | salesprediction.py:98-102 | succeeds exactly when every lookup succeeds, and then the frame is the filled frame; otherwise (KeyError) the frame is unchanged |
| Encoding.OutletAgeFacts | salesprediction.py:534-535 | the age plus the establishment year is 2024; the age is non-negative exactly when the year is at most 2024 |
| Encoding.OutletAgeReversesOrder | salesprediction.py:534-535 | an earlier year gives a strictly greater age, and conversely |
| Encoding.OrdinalCodeIsPosition | salesprediction.py:538-539 | a label has code n exactly when it is the n-th label of the order (code and position are inverse) |
| Encoding.OrdinalCodeOrder | salesprediction.py:538-539 | the ordinal codes are strictly order-preserving and injective |
| Encoding.OutletSizeCodesInOrder | salesprediction.py:538 | Small, Medium, High are numbered 1, 2, 3 and no other label is numbered |
| Encoding.LocationTypeCodesInOrder | salesprediction.py:539 | Tier 1, Tier 2, Tier 3 are numbered 1, 2, 3 and no other label is numbered |
| Encoding.OutletSizeCodeValues | salesprediction.py:538 | the size codes are 1, 2, 3; only the three sizes get a number |
| Encoding.LocationTypeCodeValues | salesprediction.py:539 | the location codes are 1, 2, 3; only the three tiers get a number |
| Encoding.IdPrefix | salesprediction.py:550 | the prefix is a prefix of the identifier of length min(2, length) |
| Encoding.IdPrefixIdempotent | salesprediction.py:550 | taking the prefix twice equals taking it once |
| Ordering.SortedDistinctCorrect | salesprediction.py:542-544 | the encoder classes are strictly ascending and hold exactly the column's values |
| Ordering.SortedUnique | salesprediction.py:542-544 | two strictly ascending sequences with the same values are equal, so the class list is determined by the values alone |
| Ordering.StrLessIsStrictOrder | salesprediction.py:542-544 | Python's string comparison is asymmetric, transitive and total |
| Ordering.StrLessCommonPrefix | salesprediction.py:544 | a common prefix does not change how two strings compare |
| Encoding.ClassesSorted | salesprediction.py:542-544 | the fitted classes are sorted and are exactly the column's distinct values |
| Encoding.Transform | salesprediction.py:543-544 | a code indexes the class list at the encoded value |
| Encoding.LabelCode | salesprediction.py:543-544 | each value's code is its position in the sorted classes |
| Encoding.LabelCodeOrder | salesprediction.py:543-544 | codes compare as the strings do, and equal codes mean equal values |
| Encoding.LabelCodeOfClass | salesprediction.py:543-544 | encoding the k-th class gives k (decoding then encoding is the identity) |
| Encoding.LabelCodesFromSortedList | salesprediction.py:543-544 | when a sorted list holds exactly the column's values, the classes are that list and each value's code is its position |
| Encoding.OneHotIndicators | salesprediction.py:553-557 | each indicator is 0 or 1, at most one is 1, all are 0 exactly for the first category, and otherwise the value's own column is 1 |
| Encoding.OneHotRoundTrip | salesprediction.py:553-557 | the category is recovered from its indicators |
| Encoding.Without | salesprediction.py:563 | the kept columns are exactly the columns not dropped |
| Encoding.IndicatorNameIsNotSource | salesprediction.py:560-563 | no indicator column name equals a source column name |
| Encoding.ColumnsAfterOneHotLayout | salesprediction.py:557-563 | the three source columns are gone, every other column is kept, and each non-first outlet has its indicator column |
| Encoding.FittedEncodersKnowRows | salesprediction.py:542-557 | every row's values are among the classes fitted on its own frame |
| Encoding.EncodeFrame | salesprediction.py:534-563 | the encoded frame has one row per input row |
| Encoding.EncodeFrameRows | salesprediction.py:534-563 | each encoded row has three well-formed indicator blocks, label codes that decode to its values, and the age |
| FeatureSelection.ArgSortCorrect | salesprediction.py:856 | with distinct ranks the argsort is a permutation of the indices in strictly ascending rank order |
| FeatureSelection.TopKLowestRanks | salesprediction.py:856 | the top-k are min(k, N) distinct features, each ranked below every feature left out |
| FeatureSelection.TopKNested | salesprediction.py:855-856 | the top-k selection is a prefix (and subset) of every larger selection |
| FeatureSelection.PrefixMembership | salesprediction.py:856 | a value is in the first m entries exactly when its first position is below m |
| FeatureSelection.TopKIsRankAtMost | salesprediction.py:845-856 | with an RFE ranking (ranks 1..N) the top-k are exactly the features of rank at most k |
| FeatureSelection.NamesIdentifyTopK | salesprediction.py:856-857 | with unique column names, a column's name is among the selected names exactly when the column is among the top-k |
| FeatureSelection.EvaluateFeatureCounts | salesprediction.py:855-874 | the results hold one row for each number of features 1..N in order, with its top-k selection, names and scores |
| FeatureSelection.BestRow | salesprediction.py:877-878 | the chosen row has the largest R2 of all rows, and is the first such row |
| FeatureSelection.SelectFeatures | salesprediction.py:855-881 | the chosen k is in 1..N, the selection is the top-k, the names are the columns at the selected indices in order, no other k scores a higher R2, and every smaller k scores strictly less |
| FeatureSelection.SelectedIndicatorNames | salesprediction.py:959 | the three outlet features are the indicator columns of OUT027, OUT019 and OUT035 |
| FeatureSelection.OutletIndicatorIsColumn | salesprediction.py:557-563 | a non-reference outlet's indicator column is in the encoded frame |
| FeatureSelection.SelectedFeaturesAreColumns | salesprediction.py:959-961 | all six final features are columns of the encoded frame |
| App.SelectedFeaturesDistinct | salesprediction.py:959 | the six feature names are pairwise distinct |
| App.Indicator | app.py:13-15 | an indicator is 0 or 1, and 1 exactly when the choice is its outlet |
| App.PredictFeatures | app.py:11-17 | the vector has six entries, and each is the unscaled value (before StandardScaler) of the column named at that position of the final feature list (salesprediction.py:959) |
| App.OtherMeansNoOutlet | app.py:46-48 | choosing "Other" in all three boxes gives three zeros |
| App.IndicatorMatchesOneHot | app.py:13-15 | for a row of outlet x, the box for an outlet sends the same 0/1 as that outlet's training indicator |
| App.OutletIndicatorsExclusive | app.py:13-15 | a training row has at most one outlet indicator set, while the form can set all three at once |
| App.OutletTypeOptionsInjective | app.py:45 | the select box keys are 0..3, key k shows the k-th outlet type, and distinct keys show distinct types |
| App.OutletTypeNamesSorted | app.py:45 | the four outlet type names, in select box key order, are in strictly ascending Python string order |
| App.OutletTypeKeysAreLabelCodes | app.py:45 | when the training column holds the four outlet types, the label code of each type is its select box key |
| App.FormFeaturesInRange | app.py:51-56 | for any accepted form, the outlet type code is 0..3, the price is non-negative, the age is 0..100, and each indicator is 1 exactly when its outlet is chosen and 0 exactly for "Other" |
| App.Standardize | salesprediction.py:632-638 | standardizing is undone by multiplying by the scale and adding the mean |
| App.ServedOutletTypeIsUnscaled | app.py:17 | for some valid scalers the app sends a value the model never saw for that outlet type |
| App.PredictScaledFeatures | app.py:17 | each entry is the value the training column held for the form, scaled where training scaled it |
| App.ScaledFeaturesKeepIndicators | salesprediction.py:634-638 | only the outlet type, price and age are standardized; the three indicators are sent as 0/1 |

## Left out

- CSV loading (salesprediction.py:49-50) and the pickle save and load are file I/O and are left out. This includes the save at salesprediction.py:972-973, which writes the file name string to a file with a different name instead of writing the model. It also includes the load at app.py:7-8.
- The model's `predict` call (app.py:18-19) is foreign code, and the model does not cover it.
- Plots, EDA printing and the Streamlit page layout and styling are presentation only.
- The floating-point numerics are left out:
  - the mean fill of Item_Weight (salesprediction.py:94-95);
  - the IQR outlier bounds;
  - skewness and the Box-Cox, log and square-root transforms;
  - the fitting of StandardScaler. Its per-column mean and scale are inputs, and only applying them is modelled.
  - the R², MAE and RMSE metrics.
- The internals of the foreign libraries are left out:
  - the fitting and prediction of XGBoost and the other regressors;
  - GridSearchCV;
  - `cross_val_score` (its scores are a parameter);
  - how RFE computes its ranking (the ranking is a parameter);
  - `train_test_split`.
- `pivot_table` with `mode()` is left out, including how it breaks ties between equally frequent sizes. The resulting mode table is an input.
- The `n_jobs=-1` parallelism of the grid search is a performance detail, not logic.
- Cleaning.Record: it keeps only the columns the modelled steps read. The floating-point columns (weight, visibility, price, sales) are not fields.
- FeatureSelection.BestRow: among equal R² scores the model picks the earliest row. The source sorts with pandas' default non-stable sort, so its choice among ties is not specified.
- FeatureSelection.ArgSortCorrect: it requires distinct ranks. RFE with `n_features_to_select=1, step=1` gives them, and with equal ranks `np.argsort`'s order is unspecified.
- App.PredictFeatures: it models numpy's conversion of the mixed list to a float array as `real`. No floating-point rounding is modelled.

## Findings

| source | as written | input that shows it | evidently intended | confidence | as-written member | corrected member |
|---|---|---|---|---|---|---|
| app.py:17 | `predict_sales` sends outlet type, price and age raw, while the model was fitted on standardized columns (salesprediction.py:634-638, 959-964) | outlet type key 1 with an Outlet_Type scaler of mean 1 and scale 1: the app sends 1, training rows of that type held 0 | apply the training scaler to the scaled columns before predicting | high for the mismatch, not executed | App.ServedOutletTypeIsUnscaled | App.PredictScaledFeatures |
