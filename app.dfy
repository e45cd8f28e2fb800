/**
 * The prediction app: the form's choices become the six-entry feature vector
 * that is handed to the trained model.  The model itself (an XGBoost regressor
 * loaded from a pickle) is not part of this model; only the vector is.
 */
module App {
  import opened Ordering
  import Encoding
  import FeatureSelection

  /** The four outlet types, in the order the select box numbers them. */
  const OutletTypeNames: seq<string> :=
    ["Grocery Store", "Supermarket Type1", "Supermarket Type2", "Supermarket Type3"]

  /** The outlet-type select box: the key is what the app sends, the value what it shows. */
  const OutletTypeOptions: map<int, string> :=
    map k | 0 <= k < |OutletTypeNames| :: OutletTypeNames[k]

  /** The label of the "not this outlet" option of the three identifier boxes. */
  const OtherChoice: string := "Other"

  /** One identifier box: 1 when the chosen label is the outlet, 0 otherwise. */
  function Indicator(choice: string, id: string): (b: int)
    ensures b == 0 || b == 1
    ensures b == 1 <==> choice == id
  {
    if choice == id then 1 else 0
  }

  /** The unscaled value (before StandardScaler) that each column of the final
      feature list takes for a filled-in form, looked up by column name. */
  function FeatureValue(name: string, outletType: int, out027: string, itemMrp: real,
                        out019: string, outletAge: int, out035: string): real
  {
    if name == "Outlet_Type" then outletType as real
    else if name == "Item_MRP" then itemMrp
    else if name == "Outlet_Age" then outletAge as real
    else if name == Encoding.IndicatorName("Outlet_Identifier", "OUT027") then Indicator(out027, "OUT027") as real
    else if name == Encoding.IndicatorName("Outlet_Identifier", "OUT019") then Indicator(out019, "OUT019") as real
    else if name == Encoding.IndicatorName("Outlet_Identifier", "OUT035") then Indicator(out035, "OUT035") as real
    else 0.0
  }

  /** The six names are pairwise distinct. */
  lemma SelectedFeaturesDistinct()
    ensures forall a, b :: 0 <= a < b < |FeatureSelection.SelectedFeatures| ==>
      FeatureSelection.SelectedFeatures[a] != FeatureSelection.SelectedFeatures[b]
  {
  }

  /** The numeric array `predict_sales` builds (numpy stores it as floats).
      Its entries are, position by position, the unscaled values of the six
      columns of the final feature list, in that list's order. */
  function PredictFeatures(outletType: int, out027: string, itemMrp: real,
                           out019: string, outletAge: int, out035: string): (features: seq<real>)
    ensures |features| == |FeatureSelection.SelectedFeatures|
    ensures forall k :: 0 <= k < |features| ==>
      features[k] == FeatureValue(FeatureSelection.SelectedFeatures[k], outletType, out027, itemMrp, out019, outletAge, out035)
  {
    FeatureSelection.SelectedIndicatorNames();
    SelectedFeaturesDistinct();
    [outletType as real, Indicator(out027, "OUT027") as real, itemMrp,
     Indicator(out019, "OUT019") as real, outletAge as real, Indicator(out035, "OUT035") as real]
  }

  /** What the form lets through: an outlet-type key of the select box, a
      price of at least 0 and an age from 0 to 100; each identifier box offers
      "Other" and its outlet. */
  predicate FormAccepts(outletType: int, out027: string, itemMrp: real,
                        out019: string, outletAge: int, out035: string)
  {
    && outletType in OutletTypeOptions
    && out027 in {OtherChoice, "OUT027"} && out019 in {OtherChoice, "OUT019"} && out035 in {OtherChoice, "OUT035"}
    && itemMrp >= 0.0
    && 0 <= outletAge <= 100
  }

  /** Every vector the form can produce has an outlet-type code in 0 .. 3,
      a non-negative price, an age in 0 .. 100 and three 0/1 indicators, each
      1 exactly when its outlet was picked. */
  lemma FormFeaturesInRange(outletType: int, out027: string, itemMrp: real,
                                               out019: string, outletAge: int, out035: string)
    requires FormAccepts(outletType, out027, itemMrp, out019, outletAge, out035)
    ensures var f := PredictFeatures(outletType, out027, itemMrp, out019, outletAge, out035);
      && 0.0 <= f[0] <= 3.0 && f[2] >= 0.0 && 0.0 <= f[4] <= 100.0
      && (f[1] == 1.0 <==> out027 == "OUT027") && (f[1] == 0.0 <==> out027 == OtherChoice)
      && (f[3] == 1.0 <==> out019 == "OUT019") && (f[3] == 0.0 <==> out019 == OtherChoice)
      && (f[5] == 1.0 <==> out035 == "OUT035") && (f[5] == 0.0 <==> out035 == OtherChoice)
  {
  }

  /** Choosing "Other" in every identifier box sends three zeros. */
  lemma OtherMeansNoOutlet(outletType: int, itemMrp: real, outletAge: int)
    ensures var f := PredictFeatures(outletType, OtherChoice, itemMrp, OtherChoice, outletAge, OtherChoice);
      f[1] == 0.0 && f[3] == 0.0 && f[5] == 0.0
  {
  }

  /** The label a user picks in the box for `id` when the item sells at outlet `x`. */
  function ChoiceFor(x: string, id: string): string
  {
    if x == id then id else OtherChoice
  }

  /** For a row of outlet `x`, the box for `id` sends the same 0/1 as the
      training indicator column of `id`. */
  lemma IndicatorMatchesOneHot(cats: seq<string>, x: string, id: string)
    requires x in cats && id in cats && id != cats[0] && id != OtherChoice
    ensures IndexOf(cats, id) >= 1
    ensures Indicator(ChoiceFor(x, id), id) == Encoding.OneHot(cats, x)[IndexOf(cats, id) - 1]
  {
  }

  /** A training row belongs to one outlet, so at most one of the three
      outlet indicators is 1; the form lets all three be 1 at once. */
  lemma {:induction false} OutletIndicatorsExclusive(cats: seq<string>, x: string, i: nat, j: nat)
    requires StrictlySorted(cats, StrLess)
    requires x in cats && 1 <= i < j < |cats|
    ensures Encoding.OneHot(cats, x)[i - 1] == 0 || Encoding.OneHot(cats, x)[j - 1] == 0
    ensures var f := PredictFeatures(0, "OUT027", 0.0, "OUT019", 0, "OUT035");
      f[1] == 1.0 && f[3] == 1.0 && f[5] == 1.0
  {
    Encoding.OneHotIndicators(cats, x);
  }

  /** The select box offers the keys 0 .. 3, each with its own outlet type. */
  lemma OutletTypeOptionsInjective()
    ensures forall k :: k in OutletTypeOptions <==> 0 <= k < 4
    ensures forall k :: 0 <= k < 4 ==> OutletTypeOptions[k] == OutletTypeNames[k]
    ensures forall a, b :: a in OutletTypeOptions && b in OutletTypeOptions && a != b ==>
      OutletTypeOptions[a] != OutletTypeOptions[b]
  {
  }

  lemma GroceryStoreFirst(s: string)
    requires |s| > 0 && s[0] == 'S'
    ensures StrLess("Grocery Store", s)
  {
  }

  /** "Supermarket Type" followed by one more character. */
  function SupermarketType(c: char): string
  {
    "Supermarket Type" + [c]
  }

  lemma SupermarketTypesOrdered(a: char, b: char)
    requires a < b
    ensures StrLess(SupermarketType(a), SupermarketType(b))
  {
    StrLessCommonPrefix("Supermarket Type", [a], [b]);
    assert StrLess([a], [b]);
  }

  lemma OutletTypeNamesAreSupermarketTypes()
    ensures OutletTypeNames[1] == SupermarketType('1')
    ensures OutletTypeNames[2] == SupermarketType('2')
    ensures OutletTypeNames[3] == SupermarketType('3')
  {
  }

  lemma OutletTypeNamePairs()
    ensures StrLess(OutletTypeNames[0], OutletTypeNames[1]) && StrLess(OutletTypeNames[0], OutletTypeNames[2])
    ensures StrLess(OutletTypeNames[0], OutletTypeNames[3]) && StrLess(OutletTypeNames[1], OutletTypeNames[2])
    ensures StrLess(OutletTypeNames[1], OutletTypeNames[3]) && StrLess(OutletTypeNames[2], OutletTypeNames[3])
  {
    var n := OutletTypeNames;
    OutletTypeNamesAreSupermarketTypes();
    SupermarketTypesOrdered('1', '2');
    SupermarketTypesOrdered('1', '3');
    SupermarketTypesOrdered('2', '3');
    GroceryStoreFirst(n[1]);
    GroceryStoreFirst(n[2]);
    GroceryStoreFirst(n[3]);
  }

  lemma OutletTypeNamesSorted()
    ensures StrictlySorted(OutletTypeNames, StrLess)
  {
    OutletTypeNamePairs();
    SortedFromPairs(OutletTypeNames, StrLess);
  }

  /** Four values are sorted when each of the six pairs is in order. */
  lemma SortedFromPairs<T>(s: seq<T>, less: (T, T) -> bool)
    requires |s| == 4
    requires less(s[0], s[1]) && less(s[0], s[2]) && less(s[0], s[3])
    requires less(s[1], s[2]) && less(s[1], s[3]) && less(s[2], s[3])
    ensures StrictlySorted(s, less)
  {
  }

  /** When the training column holds exactly the four outlet types, the label
      encoder's code of each type is its key in the select box, so the app
      sends the code the model was trained on (before scaling). */
  lemma {:induction false} OutletTypeKeysAreLabelCodes(column: seq<string>)
    requires forall v :: v in column ==> v in OutletTypeNames
    requires forall v :: v in OutletTypeNames ==> v in column
    ensures forall k :: 0 <= k < 4 ==> OutletTypeOptions[k] in column
    ensures forall k :: 0 <= k < 4 ==> Encoding.LabelCode(column, OutletTypeOptions[k]) == k
  {
    OutletTypeOptionsInjective();
    OutletTypeNamesSorted();
    Encoding.LabelCodesFromSortedList(column, OutletTypeNames);
  }

  // ---------------------------------------------------------------------
  // Standard scaling

  /** The columns the notebook standardizes before training. */
  const ScaledFeatures: seq<string> :=
    ["Item_Weight", "Item_MRP", "Outlet_Size", "Outlet_Location_Type", "Outlet_Type", "Outlet_Age", "Item_Visibility_Sqrt"]

  /** What StandardScaler learns for one column: its mean and its scale (the
      standard deviation, or 1 for a constant column), so the scale is positive. */
  datatype Scaling = Scaling(mean: real, scale: real)

  predicate ValidScalers(scalers: map<string, Scaling>)
  {
    forall name :: name in ScaledFeatures ==> name in scalers && scalers[name].scale > 0.0
  }

  function Standardize(s: Scaling, x: real): (z: real)
    requires s.scale > 0.0
    ensures z * s.scale + s.mean == x
  {
    (x - s.mean) / s.scale
  }

  /** The value the model saw in training for a column whose raw value is x. */
  function TrainedValue(scalers: map<string, Scaling>, name: string, x: real): real
    requires ValidScalers(scalers)
  {
    if name in ScaledFeatures then Standardize(scalers[name], x) else x
  }

  /** The array sent to the model differs from what it was trained on: with
      an outlet-type column of mean 1 and scale 1, a Supermarket Type1 form
      sends 1 where training rows of that type held 0. */
  lemma ServedOutletTypeIsUnscaled()
    ensures var scalers := map n | n in ScaledFeatures :: Scaling(1.0, 1.0);
      && ValidScalers(scalers)
      && PredictFeatures(1, OtherChoice, 0.0, OtherChoice, 0, OtherChoice)[0] == 1.0
      && TrainedValue(scalers, FeatureSelection.SelectedFeatures[0], 1.0) == 0.0
  {
  }

  /** The features scaled with the training scalers before they are sent. */
  function PredictScaledFeatures(scalers: map<string, Scaling>, outletType: int, out027: string, itemMrp: real,
                                 out019: string, outletAge: int, out035: string): (features: seq<real>)
    requires ValidScalers(scalers)
    ensures |features| == |FeatureSelection.SelectedFeatures|
    ensures forall k :: 0 <= k < |features| ==>
      var name := FeatureSelection.SelectedFeatures[k];
      features[k] == TrainedValue(scalers, name, FeatureValue(name, outletType, out027, itemMrp, out019, outletAge, out035))
  {
    var raw := PredictFeatures(outletType, out027, itemMrp, out019, outletAge, out035);
    seq(|raw|, k requires 0 <= k < |raw| => TrainedValue(scalers, FeatureSelection.SelectedFeatures[k], raw[k]))
  }

  /** Scaling only touches the three numeric features; the outlet indicators
      are sent as 0 or 1, as in training. */
  lemma ScaledFeaturesKeepIndicators(scalers: map<string, Scaling>, outletType: int, out027: string,
                                                        itemMrp: real, out019: string, outletAge: int, out035: string)
    requires ValidScalers(scalers)
    ensures var f := PredictScaledFeatures(scalers, outletType, out027, itemMrp, out019, outletAge, out035);
      && f[0] == Standardize(scalers["Outlet_Type"], outletType as real)
      && f[2] == Standardize(scalers["Item_MRP"], itemMrp)
      && f[4] == Standardize(scalers["Outlet_Age"], outletAge as real)
      && f[1] == Indicator(out027, "OUT027") as real
      && f[3] == Indicator(out019, "OUT019") as real
      && f[5] == Indicator(out035, "OUT035") as real
  {
  }
}
