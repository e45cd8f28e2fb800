/**
 * Feature selection (section 8 of the training notebook): from the ranking
 * that recursive feature elimination reports, evaluate the top-k features for
 * every k, keep the k whose cross-validated R^2 is largest, and select those
 * features.
 *
 * The ranking and the cross-validation scores come from library code (RFE,
 * XGBoost, `cross_val_score`); they are inputs here: the ranking as a
 * sequence, the scorer as a function of the selected feature indices.
 */
module FeatureSelection {
  import opened Ordering
  import Encoding

  /** No two features share a rank. */
  predicate DistinctRanks(ranking: seq<int>)
  {
    forall i, j :: 0 <= i < j < |ranking| ==> ranking[i] != ranking[j]
  }

  /** The ranking RFE gives with `n_features_to_select=1, step=1`: the ranks
      1 .. N, each feature eliminated at its own step. */
  predicate IsRfeRanking(ranking: seq<int>)
  {
    DistinctRanks(ranking) && forall i :: 0 <= i < |ranking| ==> 1 <= ranking[i] <= |ranking|
  }

  function Indices(n: nat): (ix: seq<nat>)
    ensures |ix| == n && forall i :: 0 <= i < n ==> ix[i] == i
  {
    seq(n, i requires 0 <= i < n => i as nat)
  }

  /** Feature i comes before feature j when its rank is lower. */
  function RankLess(ranking: seq<int>): (nat, nat) -> bool
  {
    (i: nat, j: nat) => i < |ranking| && j < |ranking| && ranking[i] < ranking[j]
  }

  /** `np.argsort(ranking)`: the feature indices ordered by rank.  With distinct
      ranks the order is unique, so it does not depend on numpy's sort. */
  function ArgSort(ranking: seq<int>): seq<nat>
  {
    SortedDistinct(Indices(|ranking|), RankLess(ranking))
  }

  /** `np.argsort(ranking)[:k]`, with Python's slice semantics for k past the end. */
  function TopK(ranking: seq<int>, k: nat): seq<nat>
  {
    var order := ArgSort(ranking);
    order[..if k < |order| then k else |order|]
  }

  /** The argsort is a permutation of the indices in ascending rank order. */
  lemma {:induction false} ArgSortCorrect(ranking: seq<int>)
    requires DistinctRanks(ranking)
    ensures |ArgSort(ranking)| == |ranking|
    ensures forall a :: 0 <= a < |ranking| ==> ArgSort(ranking)[a] < |ranking|
    ensures forall i :: 0 <= i < |ranking| ==> i in ArgSort(ranking)
    ensures forall a, b :: 0 <= a < b < |ranking| ==>
      ranking[ArgSort(ranking)[a]] < ranking[ArgSort(ranking)[b]]
  {
    var less := RankLess(ranking);
    var ix := Indices(|ranking|);
    forall a: nat, b: nat | a in ix && b in ix && a != b ensures less(a, b) || less(b, a) {
      var i, j := IndexOf(ix, a), IndexOf(ix, b);
      if i < j { assert ranking[a] != ranking[b]; } else { assert ranking[b] != ranking[a]; }
    }
    assert StrictOrderOn(less, ix);
    SortedDistinctCorrect(ix, less, ix);
    SortedDistinctLength(ix, less, ix);
    var order := ArgSort(ranking);
    forall a | 0 <= a < |ranking| ensures order[a] < |ranking| {
      assert order[a] in order;
      var i := IndexOf(ix, order[a]);
    }
    forall i | 0 <= i < |ranking| ensures i in order {
      assert ix[i] in ix;
    }
  }

  /** The k selected features are distinct, and each has a lower rank than
      every feature left out: they are the k best ranked. */
  lemma {:induction false} TopKLowestRanks(ranking: seq<int>, k: nat)
    requires DistinctRanks(ranking)
    ensures |TopK(ranking, k)| == if k < |ranking| then k else |ranking|
    ensures forall a :: 0 <= a < |TopK(ranking, k)| ==> TopK(ranking, k)[a] < |ranking|
    ensures forall a, b :: 0 <= a < b < |TopK(ranking, k)| ==> TopK(ranking, k)[a] != TopK(ranking, k)[b]
    ensures forall i, j :: i in TopK(ranking, k) && 0 <= j < |ranking| && j !in TopK(ranking, k) ==>
      ranking[i] < ranking[j]
  {
    ArgSortCorrect(ranking);
    var order := ArgSort(ranking);
    var sel := TopK(ranking, k);
    var m := |sel|;
    forall a, b | 0 <= a < b < m ensures sel[a] != sel[b] {
      assert ranking[order[a]] < ranking[order[b]];
    }
    forall i, j | i in sel && 0 <= j < |ranking| && j !in sel ensures ranking[i] < ranking[j] {
      var a := IndexOf(sel, i);
      var b := IndexOf(order, j);
      assert forall c :: 0 <= c < m ==> order[c] in sel;
      assert ranking[order[a]] < ranking[order[b]];
    }
  }

  /** The selections grow with k: the top-k features are the first k of the top-(k+1). */
  lemma TopKNested(ranking: seq<int>, k1: nat, k2: nat)
    requires k1 <= k2
    ensures TopK(ranking, k1) <= TopK(ranking, k2)
    ensures forall i :: i in TopK(ranking, k1) ==> i in TopK(ranking, k2)
  {
  }

  /** A strictly increasing sequence of n integers, all in 1 .. n, is 1, 2, ..., n. */
  lemma {:induction false} IncreasingFillsRange(s: seq<int>, a: nat)
    requires forall p, q :: 0 <= p < q < |s| ==> s[p] < s[q]
    requires forall p :: 0 <= p < |s| ==> 1 <= s[p] <= |s|
    requires a < |s|
    ensures s[a] >= a + 1 && s[a] <= a + 1
  {
    IncreasingLowerBound(s, a);
    IncreasingUpperBound(s, a);
  }

  lemma {:induction false} IncreasingLowerBound(s: seq<int>, a: nat)
    requires forall p, q :: 0 <= p < q < |s| ==> s[p] < s[q]
    requires forall p :: 0 <= p < |s| ==> 1 <= s[p]
    requires a < |s|
    ensures s[a] >= a + 1
  {
    if a > 0 {
      IncreasingLowerBound(s, a - 1);
    }
  }

  lemma {:induction false} IncreasingUpperBound(s: seq<int>, a: nat)
    requires forall p, q :: 0 <= p < q < |s| ==> s[p] < s[q]
    requires forall p :: 0 <= p < |s| ==> s[p] <= |s|
    requires a < |s|
    ensures s[a] <= a + 1
    decreases |s| - a
  {
    if a < |s| - 1 {
      IncreasingUpperBound(s, a + 1);
    }
  }

  /** A value lies in the first m elements exactly when its first position is below m. */
  lemma PrefixMembership<T>(s: seq<T>, x: T, m: nat)
    requires x in s && m <= |s|
    ensures x in s[..m] <==> IndexOf(s, x) < m
  {
  }

  /** With an RFE ranking the top-k features are exactly those of rank at most k. */
  lemma {:induction false} TopKIsRankAtMost(ranking: seq<int>, k: nat)
    requires IsRfeRanking(ranking)
    ensures forall i :: 0 <= i < |ranking| ==> (i in TopK(ranking, k) <==> ranking[i] <= k)
  {
    ArgSortCorrect(ranking);
    var order := ArgSort(ranking);
    var n := |ranking|;
    var m := if k < n then k else n;
    var ranks := seq(n, a requires 0 <= a < n => ranking[order[a]]);
    forall i | 0 <= i < n ensures i in TopK(ranking, k) <==> ranking[i] <= k {
      var a := IndexOf(order, i);
      IncreasingFillsRange(ranks, a);
      PrefixMembership(order, i, m);
    }
  }

  // ---------------------------------------------------------------------
  // Evaluating every k and choosing the best

  /** The mean cross-validated R^2, MAE and RMSE of one feature subset. */
  datatype Scores = Scores(r2: real, mae: real, rmse: real)

  /** One row of the `results` frame. */
  datatype ResultRow = ResultRow(numFeatures: nat, featureNames: seq<string>, features: seq<nat>, scores: Scores)

  /** `X_train.columns[selected]`: the names of the selected columns. */
  function Names(columns: seq<string>, selected: seq<nat>): seq<string>
    requires forall a :: 0 <= a < |selected| ==> selected[a] < |columns|
  {
    seq(|selected|, a requires 0 <= a < |selected| => columns[selected[a]])
  }

  /** Column names are unique (a data frame's columns here always are). */
  predicate DistinctColumns(columns: seq<string>)
  {
    forall i, j :: 0 <= i < j < |columns| ==> columns[i] != columns[j]
  }

  /** The name list identifies the selection: a column's name is among the
      selected names exactly when the column is among the top-k. */
  lemma {:induction false} NamesIdentifyTopK(columns: seq<string>, ranking: seq<int>, k: nat)
    requires DistinctRanks(ranking) && |columns| == |ranking| && DistinctColumns(columns)
    ensures forall a :: 0 <= a < |TopK(ranking, k)| ==> TopK(ranking, k)[a] < |columns|
    ensures forall j :: 0 <= j < |columns| ==>
      (columns[j] in Names(columns, TopK(ranking, k)) <==> j in TopK(ranking, k))
  {
    TopKLowestRanks(ranking, k);
    var sel := TopK(ranking, k);
    var names := Names(columns, sel);
    forall j | 0 <= j < |columns| ensures columns[j] in names <==> j in sel {
      if j in sel {
        var a := IndexOf(sel, j);
        assert names[a] == columns[j];
      }
      if columns[j] in names {
        var a := IndexOf(names, columns[j]);
        assert columns[sel[a]] == columns[j];
        assert sel[a] == j;
      }
    }
  }

  /** The row the loop appends for n features. */
  function RowFor(columns: seq<string>, ranking: seq<int>, cv: seq<nat> -> Scores, n: nat): ResultRow
    requires DistinctRanks(ranking) && |columns| == |ranking|
  {
    TopKLowestRanks(ranking, n);
    var selected := TopK(ranking, n);
    ResultRow(n, Names(columns, selected), selected, cv(selected))
  }

  /** The loop at lines 855-874: one row per number of features 1 .. N, in that order. */
  method EvaluateFeatureCounts(columns: seq<string>, ranking: seq<int>, cv: seq<nat> -> Scores)
    returns (results: seq<ResultRow>)
    requires DistinctRanks(ranking) && |columns| == |ranking|
    ensures |results| == |ranking|
    ensures forall k :: 0 <= k < |results| ==> results[k] == RowFor(columns, ranking, cv, k + 1)
  {
    results := [];
    var n := 1;
    while n <= |ranking|
      invariant 1 <= n <= |ranking| + 1
      invariant |results| == n - 1
      invariant forall k :: 0 <= k < |results| ==> results[k] == RowFor(columns, ranking, cv, k + 1)
    {
      TopKLowestRanks(ranking, n);
      var selected := TopK(ranking, n);
      var names := Names(columns, selected);
      var newRow := ResultRow(n, names, selected, cv(selected));
      results := results + [newRow];
      n := n + 1;
    }
  }

  /** The position of the row with the largest R^2 (`sort_values('R2_CV',
      ascending=False).iloc[0]`); among equal scores the earliest row. */
  method BestRow(results: seq<ResultRow>) returns (best: nat)
    requires |results| > 0
    ensures best < |results|
    ensures forall k :: 0 <= k < |results| ==> results[k].scores.r2 <= results[best].scores.r2
    ensures forall k :: 0 <= k < best ==> results[k].scores.r2 < results[best].scores.r2
  {
    best := 0;
    var k := 1;
    while k < |results|
      invariant 1 <= k <= |results|
      invariant best < k
      invariant forall j :: 0 <= j < k ==> results[j].scores.r2 <= results[best].scores.r2
      invariant forall j :: 0 <= j < best ==> results[j].scores.r2 < results[best].scores.r2
    {
      if results[k].scores.r2 > results[best].scores.r2 {
        best := k;
      }
      k := k + 1;
    }
  }

  /** Lines 855-881: the chosen number of features, the selected indices and
      their names.  No other number of features scores a higher R^2, and the
      selection is the top-k by rank. */
  method SelectFeatures(columns: seq<string>, ranking: seq<int>, cv: seq<nat> -> Scores)
    returns (k: nat, selected: seq<nat>, names: seq<string>)
    requires DistinctRanks(ranking) && |columns| == |ranking| && |ranking| > 0
    ensures 1 <= k <= |ranking|
    ensures selected == TopK(ranking, k) && |selected| == k
    ensures |names| == k
    ensures forall a :: 0 <= a < k ==> selected[a] < |ranking| && names[a] == columns[selected[a]]
    ensures forall j :: 1 <= j <= |ranking| ==> cv(TopK(ranking, j)).r2 <= cv(selected).r2
    ensures forall j :: 1 <= j < k ==> cv(TopK(ranking, j)).r2 < cv(selected).r2
  {
    var results := EvaluateFeatureCounts(columns, ranking, cv);
    var best := BestRow(results);
    k := results[best].numFeatures;
    names := results[best].featureNames;
    TopKLowestRanks(ranking, k);
    selected := TopK(ranking, k);
    forall j | 1 <= j <= |ranking| ensures cv(TopK(ranking, j)).r2 <= cv(selected).r2 {
      assert results[j - 1] == RowFor(columns, ranking, cv, j);
    }
    forall j | 1 <= j < k ensures cv(TopK(ranking, j)).r2 < cv(selected).r2 {
      assert results[j - 1] == RowFor(columns, ranking, cv, j);
    }
  }

  /** The six features the notebook fits its final model on, in this order. */
  const SelectedFeatures: seq<string> :=
    ["Outlet_Type", "Outlet_Identifier_OUT027", "Item_MRP",
     "Outlet_Identifier_OUT019", "Outlet_Age", "Outlet_Identifier_OUT035"]

  /** An outlet that is not the reference category has its indicator column. */
  lemma OutletIndicatorIsColumn(columns: seq<string>, prefixCats: seq<string>,
                                itemTypeCats: seq<string>, outletIdCats: seq<string>, id: string)
    requires |prefixCats| > 0 && |itemTypeCats| > 0 && |outletIdCats| > 0
    requires id in outletIdCats[1..]
    ensures Encoding.IndicatorName("Outlet_Identifier", id)
      in Encoding.ColumnsAfterOneHot(columns, prefixCats, itemTypeCats, outletIdCats)
  {
    Encoding.ColumnsAfterOneHotLayout(columns, prefixCats, itemTypeCats, outletIdCats);
    var j := IndexOf(outletIdCats[1..], id);
    assert outletIdCats[j + 1] == id;
  }

  /** The three outlet features are the indicator columns of OUT027, OUT019 and OUT035. */
  lemma SelectedIndicatorNames()
    ensures SelectedFeatures[1] == Encoding.IndicatorName("Outlet_Identifier", "OUT027")
    ensures SelectedFeatures[3] == Encoding.IndicatorName("Outlet_Identifier", "OUT019")
    ensures SelectedFeatures[5] == Encoding.IndicatorName("Outlet_Identifier", "OUT035")
  {
  }

  /** Every one of the six is a column of the encoded frame when the frame has
      Outlet_Type, Item_MRP and Outlet_Age columns and the three outlets are
      categories other than the first (the dropped reference category). */
  lemma SelectedFeaturesAreColumns(columns: seq<string>, prefixCats: seq<string>,
                                   itemTypeCats: seq<string>, outletIdCats: seq<string>)
    requires |prefixCats| > 0 && |itemTypeCats| > 0 && |outletIdCats| > 0
    requires "Outlet_Type" in columns && "Item_MRP" in columns && "Outlet_Age" in columns
    requires "OUT027" in outletIdCats[1..] && "OUT019" in outletIdCats[1..] && "OUT035" in outletIdCats[1..]
    ensures forall f :: f in SelectedFeatures ==>
      f in Encoding.ColumnsAfterOneHot(columns, prefixCats, itemTypeCats, outletIdCats)
  {
    Encoding.ColumnsAfterOneHotLayout(columns, prefixCats, itemTypeCats, outletIdCats);
    assert "Outlet_Type" !in Encoding.OneHotSources by {
      assert "Outlet_Type"[7] != "Outlet_Identifier"[7];
      assert "Outlet_Type"[0] != "Item_Identifier"[0] && "Outlet_Type"[0] != "Item_Type"[0];
    }
    assert "Item_MRP" !in Encoding.OneHotSources by {
      assert "Item_MRP"[5] != "Item_Identifier"[5] && "Item_MRP"[5] != "Item_Type"[5];
      assert "Item_MRP"[0] != "Outlet_Identifier"[0];
    }
    assert "Outlet_Age" !in Encoding.OneHotSources by {
      assert "Outlet_Age"[7] != "Outlet_Identifier"[7];
      assert "Outlet_Age"[0] != "Item_Identifier"[0] && "Outlet_Age"[0] != "Item_Type"[0];
    }
    OutletIndicatorIsColumn(columns, prefixCats, itemTypeCats, outletIdCats, "OUT027");
    OutletIndicatorIsColumn(columns, prefixCats, itemTypeCats, outletIdCats, "OUT019");
    OutletIndicatorIsColumn(columns, prefixCats, itemTypeCats, outletIdCats, "OUT035");
    SelectedIndicatorNames();
    forall f | f in SelectedFeatures
      ensures f in Encoding.ColumnsAfterOneHot(columns, prefixCats, itemTypeCats, outletIdCats)
    {
      var k := IndexOf(SelectedFeatures, f);
      assert k in {0, 1, 2, 3, 4, 5};
    }
  }
}
