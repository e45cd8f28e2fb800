/**
 * The encoding stage of the training notebook (section 5 of the notebook):
 * Outlet_Age from the establishment year, the two ordinal dictionaries, label
 * codes for Item_Fat_Content and Outlet_Type, the two-letter identifier
 * prefix, and one-hot indicators with the first category dropped for
 * Item_Identifier, Item_Type and Outlet_Identifier.
 *
 * The notebook reassigns columns of one frame, changing their types as it
 * goes; here the stage is a function from cleaned records to encoded records.
 */
module Encoding {
  import opened Wrappers
  import opened Ordering
  import Cleaning

  // ---------------------------------------------------------------------
  // Outlet age

  /** The reference year, fixed in the notebook rather than read from a clock. */
  const ThisYear: int := 2024

  function OutletAge(establishmentYear: int): int
  {
    ThisYear - establishmentYear
  }

  /** The age plus the establishment year is the reference year, so the age
      is non-negative exactly for outlets established no later than 2024. */
  lemma OutletAgeFacts(year: int)
    ensures OutletAge(year) + year == ThisYear
    ensures OutletAge(year) >= 0 <==> year <= ThisYear
  {
  }

  /** An earlier establishment year gives a strictly greater age. */
  lemma OutletAgeReversesOrder(year1: int, year2: int)
    ensures year1 < year2 <==> OutletAge(year1) > OutletAge(year2)
  {
  }

  // ---------------------------------------------------------------------
  // Ordinal encodings

  const OutletSizeCodes: map<string, int> := map["Small" := 1, "Medium" := 2, "High" := 3]
  const OutletSizeOrder: seq<string> := ["Small", "Medium", "High"]

  const LocationTypeCodes: map<string, int> := map["Tier 1" := 1, "Tier 2" := 2, "Tier 3" := 3]
  const LocationTypeOrder: seq<string> := ["Tier 1", "Tier 2", "Tier 3"]

  /** `Series.replace` with a dictionary of numbers on one cell: a label that is
      a key becomes its code; any other label is left as text (None here). */
  function OrdinalCode(codes: map<string, int>, v: string): Option<int>
  {
    if v in codes then Some(codes[v]) else None
  }

  /** The codes number the labels of `order` 1, 2, 3, ... in that order, and no other label. */
  ghost predicate NumbersInOrder(codes: map<string, int>, order: seq<string>)
  {
    && (forall v :: v in codes <==> v in order)
    && (forall i :: 0 <= i < |order| ==> order[i] in codes && codes[order[i]] == i + 1)
  }

  /** A label has code n exactly when it is the n-th label of the order:
      the code and the position in the order are inverse to each other. */
  lemma OrdinalCodeIsPosition(codes: map<string, int>, order: seq<string>, v: string, n: int)
    requires NumbersInOrder(codes, order)
    ensures OrdinalCode(codes, v) == Some(n) <==> 1 <= n <= |order| && order[n - 1] == v
  {
  }

  /** Codes of the ordered labels are strictly increasing, hence distinct. */
  lemma OrdinalCodeOrder(codes: map<string, int>, order: seq<string>, i: nat, j: nat)
    requires NumbersInOrder(codes, order)
    requires i < |order| && j < |order|
    ensures OrdinalCode(codes, order[i]).Some? && OrdinalCode(codes, order[j]).Some?
    ensures i < j <==> OrdinalCode(codes, order[i]).value < OrdinalCode(codes, order[j]).value
    ensures order[i] == order[j] <==> i == j
  {
  }

  lemma OutletSizeCodesInOrder()
    ensures NumbersInOrder(OutletSizeCodes, OutletSizeOrder)
  {
  }

  lemma LocationTypeCodesInOrder()
    ensures NumbersInOrder(LocationTypeCodes, LocationTypeOrder)
  {
  }

  /** Small, Medium and High become 1, 2 and 3; no other label becomes a number. */
  lemma OutletSizeCodeValues(v: string)
    ensures OrdinalCode(OutletSizeCodes, v).Some? <==> v in OutletSizeOrder
    ensures v == "Small" ==> OrdinalCode(OutletSizeCodes, v) == Some(1)
    ensures v == "Medium" ==> OrdinalCode(OutletSizeCodes, v) == Some(2)
    ensures v == "High" ==> OrdinalCode(OutletSizeCodes, v) == Some(3)
  {
  }

  /** Tier 1, Tier 2 and Tier 3 become 1, 2 and 3; no other label becomes a number. */
  lemma LocationTypeCodeValues(v: string)
    ensures OrdinalCode(LocationTypeCodes, v).Some? <==> v in LocationTypeOrder
    ensures v == "Tier 1" ==> OrdinalCode(LocationTypeCodes, v) == Some(1)
    ensures v == "Tier 2" ==> OrdinalCode(LocationTypeCodes, v) == Some(2)
    ensures v == "Tier 3" ==> OrdinalCode(LocationTypeCodes, v) == Some(3)
  {
  }

  /** The encoded Outlet_Size cell; a missing cell stays missing. */
  function OutletSizeCell(size: Option<string>): Option<int>
  {
    match size
    case None => None
    case Some(v) => OrdinalCode(OutletSizeCodes, v)
  }

  // ---------------------------------------------------------------------
  // Identifier prefix

  /** `str[:2]`: the first two characters, or the whole string when it is shorter. */
  function IdPrefix(id: string): (p: string)
    ensures |p| == if |id| < 2 then |id| else 2
    ensures p <= id
  {
    if |id| < 2 then id else id[..2]
  }

  lemma IdPrefixIdempotent(id: string)
    ensures IdPrefix(IdPrefix(id)) == IdPrefix(id)
  {
  }

  // ---------------------------------------------------------------------
  // Label encoding

  /** The classes a LabelEncoder or an automatic OneHotEncoder learns from a
      column: its distinct values in ascending string order. */
  function Classes(column: seq<string>): seq<string>
  {
    SortedDistinct(column, StrLess)
  }

  lemma ClassesSorted(column: seq<string>)
    ensures StrictlySorted(Classes(column), StrLess)
    ensures forall v :: v in column ==> v in Classes(column)
    ensures forall v :: v in Classes(column) ==> v in column
  {
    StrLessIsStrictOrder(column);
    SortedDistinctCorrect(column, StrLess, column);
  }

  /** `LabelEncoder.transform`: the position of a known value among the classes. */
  function Transform(classes: seq<string>, v: string): (code: nat)
    requires v in classes
    ensures code < |classes| && classes[code] == v
  {
    IndexOf(classes, v)
  }

  /** `LabelEncoder.fit_transform` on a column, for one of its values.  The
      code decodes back to the value (`inverse_transform`). */
  function LabelCode(column: seq<string>, v: string): (code: nat)
    requires v in column
    ensures code < |Classes(column)| && Classes(column)[code] == v
  {
    ClassesSorted(column);
    Transform(Classes(column), v)
  }

  /** Codes compare as the values do in string order, and distinct values
      get distinct codes. */
  lemma {:induction false} LabelCodeOrder(column: seq<string>, v: string, w: string)
    requires v in column && w in column
    ensures LabelCode(column, v) < LabelCode(column, w) <==> StrLess(v, w)
    ensures LabelCode(column, v) == LabelCode(column, w) <==> v == w
  {
    ClassesSorted(column);
    StrLessIsStrictOrder(column);
    PositionsFollowOrder(Classes(column), StrLess, LabelCode(column, v), LabelCode(column, w));
  }

  /** Every code 0 .. |classes| - 1 is the code of its class. */
  lemma {:induction false} LabelCodeOfClass(column: seq<string>, k: nat)
    requires k < |Classes(column)|
    ensures Classes(column)[k] in column
    ensures LabelCode(column, Classes(column)[k]) == k
  {
    ClassesSorted(column);
    StrLessIsStrictOrder(column);
    var c := LabelCode(column, Classes(column)[k]);
    if c != k {
      PositionsFollowOrder(Classes(column), StrLess, c, k);
      PositionsFollowOrder(Classes(column), StrLess, k, c);
    }
  }

  /** When the values of a column are exactly those of a list sorted in string
      order, the classes are that list and each value's code is its position in it. */
  lemma {:induction false} LabelCodesFromSortedList(column: seq<string>, names: seq<string>)
    requires StrictlySorted(names, StrLess)
    requires forall v :: v in column ==> v in names
    requires forall v :: v in names ==> v in column
    ensures Classes(column) == names
    ensures forall k :: 0 <= k < |names| ==> LabelCode(column, names[k]) == k
  {
    ClassesSorted(column);
    StrLessIsStrictOrder(column);
    SortedUnique(Classes(column), names, StrLess);
    forall k | 0 <= k < |names| ensures LabelCode(column, names[k]) == k {
      LabelCodeOfClass(column, k);
    }
  }

  // ---------------------------------------------------------------------
  // One-hot encoding with the first category dropped

  /** The indicators of one value: one entry per category after the first,
      1 where the value is that category.  The encoder raises on a value it was
      not fitted on, so the value must be a category. */
  function OneHot(cats: seq<string>, v: string): seq<int>
    requires v in cats
  {
    seq(|cats| - 1, j requires 0 <= j < |cats| - 1 => if cats[j + 1] == v then 1 else 0)
  }

  /** Reads a value back from its indicators: the category of the entry that
      is 1, or the dropped first category when all entries are 0. */
  function OneHotDecode(cats: seq<string>, ind: seq<int>): string
    requires |cats| > 0 && |ind| == |cats| - 1
  {
    if 1 in ind then cats[IndexOf(ind, 1) + 1] else cats[0]
  }

  /** Every indicator is 0 or 1 and at most one is 1; the dropped first
      category gives all zeros and every other category exactly one 1, at its
      own column. */
  lemma {:induction false} OneHotIndicators(cats: seq<string>, v: string)
    requires StrictlySorted(cats, StrLess)
    requires v in cats
    ensures |OneHot(cats, v)| == |cats| - 1
    ensures forall j :: 0 <= j < |cats| - 1 ==> OneHot(cats, v)[j] in {0, 1}
    ensures forall i, j :: 0 <= i < j < |cats| - 1 ==> OneHot(cats, v)[i] == 0 || OneHot(cats, v)[j] == 0
    ensures v == cats[0] <==> forall j :: 0 <= j < |cats| - 1 ==> OneHot(cats, v)[j] == 0
    ensures v != cats[0] ==> OneHot(cats, v)[IndexOf(cats, v) - 1] == 1
  {
    StrLessIsStrictOrder(cats);
    var r := OneHot(cats, v);
    forall i, j | 0 <= i < j < |cats| - 1 ensures r[i] == 0 || r[j] == 0 {
      assert StrLess(cats[i + 1], cats[j + 1]);
    }
    if v != cats[0] {
      var k := IndexOf(cats, v);
      assert r[k - 1] == 1;
    } else {
      forall j | 0 <= j < |cats| - 1 ensures r[j] == 0 {
        assert StrLess(cats[0], cats[j + 1]);
      }
    }
  }

  /** Decoding the indicators gives back the value. */
  lemma {:induction false} OneHotRoundTrip(cats: seq<string>, v: string)
    requires StrictlySorted(cats, StrLess)
    requires v in cats
    ensures OneHotDecode(cats, OneHot(cats, v)) == v
  {
    OneHotIndicators(cats, v);
    var r := OneHot(cats, v);
    if v == cats[0] {
      assert 1 !in r;
    } else {
      assert r[IndexOf(cats, v) - 1] in r;
      var j := IndexOf(r, 1);
      assert cats[j + 1] == v;
    }
  }

  /** `get_feature_names_out`: an indicator column is named after its source
      column and its category. */
  function IndicatorName(column: string, category: string): string
  {
    column + "_" + category
  }

  function IndicatorNames(column: string, cats: seq<string>): seq<string>
    requires |cats| > 0
  {
    seq(|cats| - 1, j requires 0 <= j < |cats| - 1 => IndicatorName(column, cats[j + 1]))
  }

  /** The three source columns of the one-hot encoder. */
  const OneHotSources: seq<string> := ["Item_Identifier", "Item_Type", "Outlet_Identifier"]

  /** The columns of `columns` that are not in `dropped`, in their order. */
  function Without(columns: seq<string>, dropped: seq<string>): (kept: seq<string>)
    ensures forall c :: c in kept ==> c in columns && c !in dropped
    ensures forall c :: c in columns && c !in dropped ==> c in kept
  {
    if columns == [] then []
    else if columns[0] in dropped then Without(columns[1..], dropped)
    else [columns[0]] + Without(columns[1..], dropped)
  }

  /** No indicator name is one of the three source column names. */
  lemma IndicatorNameIsNotSource(column: string, category: string)
    requires column in OneHotSources
    ensures IndicatorName(column, category) !in OneHotSources
  {
    var n := IndicatorName(column, category);
    assert n[..|column|] == column;
    if column == "Item_Type" {
      assert n[0] == 'I' && n[5] == 'T';
      assert "Item_Identifier"[5] == 'I';
      assert |"Outlet_Identifier"| == 17;
    } else {
      assert |n| > 15;
      assert "Outlet_Identifier"[0] == 'O' && "Item_Identifier"[0] == 'I';
      assert n[0] == column[0];
    }
  }

  /** The columns after `pd.concat([df.drop(columns=sources), encoded_df], axis=1)`. */
  function ColumnsAfterOneHot(columns: seq<string>, prefixCats: seq<string>,
                              itemTypeCats: seq<string>, outletIdCats: seq<string>): seq<string>
    requires |prefixCats| > 0 && |itemTypeCats| > 0 && |outletIdCats| > 0
  {
    Without(columns, OneHotSources)
      + IndicatorNames("Item_Identifier", prefixCats)
      + IndicatorNames("Item_Type", itemTypeCats)
      + IndicatorNames("Outlet_Identifier", outletIdCats)
  }

  /** The source columns are gone, every other column is kept, and each
      category other than the first has its indicator column. */
  lemma ColumnsAfterOneHotLayout(columns: seq<string>, prefixCats: seq<string>,
                                 itemTypeCats: seq<string>, outletIdCats: seq<string>)
    requires |prefixCats| > 0 && |itemTypeCats| > 0 && |outletIdCats| > 0
    ensures forall s :: s in OneHotSources ==> s !in ColumnsAfterOneHot(columns, prefixCats, itemTypeCats, outletIdCats)
    ensures forall c :: c in columns && c !in OneHotSources ==> c in ColumnsAfterOneHot(columns, prefixCats, itemTypeCats, outletIdCats)
    ensures forall j :: 1 <= j < |outletIdCats| ==>
      IndicatorName("Outlet_Identifier", outletIdCats[j]) in ColumnsAfterOneHot(columns, prefixCats, itemTypeCats, outletIdCats)
  {
    var r := ColumnsAfterOneHot(columns, prefixCats, itemTypeCats, outletIdCats);
    var a := IndicatorNames("Item_Identifier", prefixCats);
    var b := IndicatorNames("Item_Type", itemTypeCats);
    var c := IndicatorNames("Outlet_Identifier", outletIdCats);
    assert r == Without(columns, OneHotSources) + a + b + c;
    forall s | s in OneHotSources ensures s !in r {
      forall j | 0 <= j < |a| ensures a[j] != s { IndicatorNameIsNotSource("Item_Identifier", prefixCats[j + 1]); }
      forall j | 0 <= j < |b| ensures b[j] != s { IndicatorNameIsNotSource("Item_Type", itemTypeCats[j + 1]); }
      forall j | 0 <= j < |c| ensures c[j] != s { IndicatorNameIsNotSource("Outlet_Identifier", outletIdCats[j + 1]); }
    }
    forall j | 1 <= j < |outletIdCats| ensures IndicatorName("Outlet_Identifier", outletIdCats[j]) in r {
      assert r[|r| - |c| + j - 1] == c[j - 1];
    }
  }

  // ---------------------------------------------------------------------
  // The encoded frame

  /** A row after section 5.1 and 5.2: numeric codes and the indicators of the
      three one-hot sources, concatenated in source order. */
  datatype EncodedRecord = EncodedRecord(
    itemFatContent: nat,
    outletSize: Option<int>,
    outletLocationType: Option<int>,
    outletType: nat,
    outletAge: int,
    indicators: seq<int>)

  /** What the encoders learn from the frame. */
  datatype Encoders = Encoders(
    fatContentClasses: seq<string>,
    outletTypeClasses: seq<string>,
    prefixCategories: seq<string>,
    itemTypeCategories: seq<string>,
    outletIdCategories: seq<string>)

  function FatContentColumn(rows: seq<Cleaning.Record>): seq<string>
  {
    seq(|rows|, i requires 0 <= i < |rows| => rows[i].itemFatContent)
  }

  function OutletTypeColumn(rows: seq<Cleaning.Record>): seq<string>
  {
    seq(|rows|, i requires 0 <= i < |rows| => rows[i].outletType)
  }

  function PrefixColumn(rows: seq<Cleaning.Record>): seq<string>
  {
    seq(|rows|, i requires 0 <= i < |rows| => IdPrefix(rows[i].itemIdentifier))
  }

  function ItemTypeColumn(rows: seq<Cleaning.Record>): seq<string>
  {
    seq(|rows|, i requires 0 <= i < |rows| => rows[i].itemType)
  }

  function OutletIdColumn(rows: seq<Cleaning.Record>): seq<string>
  {
    seq(|rows|, i requires 0 <= i < |rows| => rows[i].outletIdentifier)
  }

  function FitEncoders(rows: seq<Cleaning.Record>): Encoders
  {
    Encoders(Classes(FatContentColumn(rows)), Classes(OutletTypeColumn(rows)),
             Classes(PrefixColumn(rows)), Classes(ItemTypeColumn(rows)), Classes(OutletIdColumn(rows)))
  }

  /** Every value of the row is one the encoders were fitted on. */
  predicate Known(enc: Encoders, r: Cleaning.Record)
  {
    && r.itemFatContent in enc.fatContentClasses
    && r.outletType in enc.outletTypeClasses
    && IdPrefix(r.itemIdentifier) in enc.prefixCategories
    && r.itemType in enc.itemTypeCategories
    && r.outletIdentifier in enc.outletIdCategories
  }

  function EncodeRecord(enc: Encoders, r: Cleaning.Record): EncodedRecord
    requires Known(enc, r)
  {
    EncodedRecord(
      Transform(enc.fatContentClasses, r.itemFatContent),
      OutletSizeCell(r.outletSize),
      OrdinalCode(LocationTypeCodes, r.outletLocationType),
      Transform(enc.outletTypeClasses, r.outletType),
      OutletAge(r.outletEstablishmentYear),
      OneHot(enc.prefixCategories, IdPrefix(r.itemIdentifier))
        + OneHot(enc.itemTypeCategories, r.itemType)
        + OneHot(enc.outletIdCategories, r.outletIdentifier))
  }

  /** Every row of a frame is known to the encoders fitted on that frame. */
  lemma FittedEncodersKnowRows(rows: seq<Cleaning.Record>, i: nat)
    requires i < |rows|
    ensures Known(FitEncoders(rows), rows[i])
  {
    ClassesSorted(FatContentColumn(rows));
    ClassesSorted(OutletTypeColumn(rows));
    ClassesSorted(PrefixColumn(rows));
    ClassesSorted(ItemTypeColumn(rows));
    ClassesSorted(OutletIdColumn(rows));
    assert FatContentColumn(rows)[i] == rows[i].itemFatContent;
    assert OutletTypeColumn(rows)[i] == rows[i].outletType;
    assert PrefixColumn(rows)[i] == IdPrefix(rows[i].itemIdentifier);
    assert ItemTypeColumn(rows)[i] == rows[i].itemType;
    assert OutletIdColumn(rows)[i] == rows[i].outletIdentifier;
  }

  /** Lines 534-563 on a whole frame: fit every encoder on the frame, then encode each row. */
  function EncodeFrame(rows: seq<Cleaning.Record>): (encoded: seq<EncodedRecord>)
    ensures |encoded| == |rows|
  {
    var enc := FitEncoders(rows);
    seq(|rows|, i requires 0 <= i < |rows| =>
      FittedEncodersKnowRows(rows, i);
      EncodeRecord(enc, rows[i]))
  }

  /** One indicator block of an encoded row: each entry 0 or 1, at most one 1,
      all 0 exactly when the value is the block's first category. */
  ghost predicate IndicatorBlock(block: seq<int>, cats: seq<string>, v: string)
  {
    && |block| == |cats| - 1
    && (forall j :: 0 <= j < |block| ==> block[j] in {0, 1})
    && (forall i, j :: 0 <= i < j < |block| ==> block[i] == 0 || block[j] == 0)
    && (|cats| > 0 ==> (v == cats[0] <==> forall j :: 0 <= j < |block| ==> block[j] == 0))
  }

  /** In every encoded row the indicators split into the prefix, item-type and
      outlet-identifier blocks, each with at most one 1 and all zeros for its
      reference category; the label codes decode to the row's values, and the
      age is 2024 minus the establishment year. */
  lemma {:induction false} EncodeFrameRows(rows: seq<Cleaning.Record>, i: nat)
    requires i < |rows|
    ensures var enc := FitEncoders(rows);
      var e := EncodeFrame(rows)[i];
      var n1, n2 := |enc.prefixCategories| - 1, |enc.itemTypeCategories| - 1;
      && |e.indicators| == n1 + n2 + |enc.outletIdCategories| - 1
      && IndicatorBlock(e.indicators[..n1], enc.prefixCategories, IdPrefix(rows[i].itemIdentifier))
      && IndicatorBlock(e.indicators[n1..n1 + n2], enc.itemTypeCategories, rows[i].itemType)
      && IndicatorBlock(e.indicators[n1 + n2..], enc.outletIdCategories, rows[i].outletIdentifier)
      && enc.fatContentClasses[e.itemFatContent] == rows[i].itemFatContent
      && enc.outletTypeClasses[e.outletType] == rows[i].outletType
      && e.outletAge == ThisYear - rows[i].outletEstablishmentYear
  {
    var enc := FitEncoders(rows);
    FittedEncodersKnowRows(rows, i);
    var r := rows[i];
    assert EncodeFrame(rows)[i] == EncodeRecord(enc, r);
    ClassesSorted(PrefixColumn(rows));
    ClassesSorted(ItemTypeColumn(rows));
    ClassesSorted(OutletIdColumn(rows));
    var a := OneHot(enc.prefixCategories, IdPrefix(r.itemIdentifier));
    var b := OneHot(enc.itemTypeCategories, r.itemType);
    var c := OneHot(enc.outletIdCategories, r.outletIdentifier);
    OneHotIndicators(enc.prefixCategories, IdPrefix(r.itemIdentifier));
    OneHotIndicators(enc.itemTypeCategories, r.itemType);
    OneHotIndicators(enc.outletIdCategories, r.outletIdentifier);
    var ind := a + b + c;
    assert ind[..|a|] == a;
    assert ind[|a|..|a| + |b|] == b;
    assert ind[|a| + |b|..] == c;
  }
}
