/**
 * The cleaning stage of the training notebook: the in-place rewrite of the
 * fat-content labels and the per-outlet-type fill of missing outlet sizes.
 *
 * A data frame is an array of records, one per (item, outlet) observation;
 * the pandas operations that change a frame in place are methods that
 * update the array row by row, each proved against a function of the old rows.
 */
module Cleaning {
  import opened Wrappers

  /** One row of the sales data.  The floating-point columns (weight,
      visibility, price, sales) take no part in cleaning and are not kept. */
  datatype Record = Record(
    itemIdentifier: string,
    itemFatContent: string,
    itemType: string,
    outletIdentifier: string,
    outletEstablishmentYear: int,
    outletSize: Option<string>,   // None is a missing (NaN) cell
    outletLocationType: string,
    outletType: string)

  // ---------------------------------------------------------------------
  // Fat-content labels

  /** The dictionary given to `replace` for the Item_Fat_Content column. */
  const FatContentFixes: map<string, string> :=
    map["low fat" := "Low Fat", "LF" := "Low Fat", "reg" := "Regular"]

  /** The two labels the column is meant to hold. */
  const FatContentLabels: set<string> := {"Low Fat", "Regular"}

  /** pandas `replace` with a dictionary on one cell: a value equal to a key
      is rewritten to that key's value, any other value is kept. */
  function Replace(fixes: map<string, string>, v: string): string
  {
    if v in fixes then fixes[v] else v
  }

  function NormalizeFatContent(raw: string): string
  {
    Replace(FatContentFixes, raw)
  }

  /** The rewrite changes exactly the three irregular spellings, each to its
      standard label, and leaves every other label as it is. */
  lemma NormalizeFatContentRewrites(raw: string)
    ensures raw == "low fat" ==> NormalizeFatContent(raw) == "Low Fat"
    ensures raw == "LF" ==> NormalizeFatContent(raw) == "Low Fat"
    ensures raw == "reg" ==> NormalizeFatContent(raw) == "Regular"
    ensures NormalizeFatContent(raw) != raw <==> raw in {"low fat", "LF", "reg"}
  {
  }

  /** After the rewrite a label is one of the two standard labels exactly when
      it was one of the five spellings found in the data. */
  lemma NormalizeFatContentLabels(raw: string)
    ensures NormalizeFatContent(raw) in FatContentLabels
        <==> raw in {"Low Fat", "Regular", "low fat", "LF", "reg"}
  {
  }

  /** No rewritten label is itself a key of the dictionary. */
  lemma FatContentFixesSettle()
    ensures forall k :: k in FatContentFixes ==> FatContentFixes[k] !in FatContentFixes
  {
  }

  /** A dictionary replace whose rewritten values are never keys is idempotent. */
  lemma ReplaceIdempotent(fixes: map<string, string>, v: string)
    requires forall k :: k in fixes ==> fixes[k] !in fixes
    ensures Replace(fixes, Replace(fixes, v)) == Replace(fixes, v)
  {
  }

  lemma NormalizeFatContentIdempotent(raw: string)
    ensures NormalizeFatContent(NormalizeFatContent(raw)) == NormalizeFatContent(raw)
  {
  }

  /** The frame after the fat-content replace: every row with its label rewritten. */
  function FatContentNormalized(rows: seq<Record>): seq<Record>
  {
    seq(|rows|, i requires 0 <= i < |rows| =>
      rows[i].(itemFatContent := NormalizeFatContent(rows[i].itemFatContent)))
  }

  /** Replacing twice leaves the frame as replacing once does. */
  lemma FatContentNormalizedIdempotent(rows: seq<Record>)
    ensures FatContentNormalized(FatContentNormalized(rows)) == FatContentNormalized(rows)
  {
  }

  /** `replace(..., inplace=True)` on Item_Fat_Content, for the training and the test frame alike. */
  method ReplaceFatContent(rows: array<Record>)
    modifies rows
    ensures rows[..] == FatContentNormalized(old(rows[..]))
  {
    var i := 0;
    while i < rows.Length
      invariant 0 <= i <= rows.Length
      invariant forall k :: 0 <= k < i ==>
        rows[k] == old(rows[k]).(itemFatContent := NormalizeFatContent(old(rows[k]).itemFatContent))
      invariant forall k :: i <= k < rows.Length ==> rows[k] == old(rows[k])
    {
      rows[i] := rows[i].(itemFatContent := NormalizeFatContent(rows[i].itemFatContent));
      i := i + 1;
    }
  }

  // ---------------------------------------------------------------------
  // Missing outlet sizes

  /** Every row whose size is missing has an outlet type that the mode table
      (outlet type to its most frequent size) holds. */
  predicate Resolvable(rows: seq<Record>, modes: map<string, string>)
  {
    forall i :: 0 <= i < |rows| && rows[i].outletSize.None? ==> rows[i].outletType in modes
  }

  function FillSize(r: Record, modes: map<string, string>): Record
    requires r.outletSize.None? ==> r.outletType in modes
  {
    if r.outletSize.None? then r.(outletSize := Some(modes[r.outletType])) else r
  }

  /** The frame after line 102: missing sizes replaced by the mode of their outlet type. */
  function SizesFilled(rows: seq<Record>, modes: map<string, string>): seq<Record>
    requires Resolvable(rows, modes)
  {
    seq(|rows|, i requires 0 <= i < |rows| => FillSize(rows[i], modes))
  }

  /** A row that was missing its size now has the modal size of its outlet
      type; a row that had a size is unchanged. */
  lemma SizesFilledRows(rows: seq<Record>, modes: map<string, string>, i: nat)
    requires Resolvable(rows, modes) && i < |rows|
    ensures |SizesFilled(rows, modes)| == |rows|
    ensures rows[i].outletSize.None? ==>
      SizesFilled(rows, modes)[i] == rows[i].(outletSize := Some(modes[rows[i].outletType]))
    ensures rows[i].outletSize.Some? ==> SizesFilled(rows, modes)[i] == rows[i]
  {
  }

  /** After the fill no size is missing. */
  lemma SizesFilledComplete(rows: seq<Record>, modes: map<string, string>)
    requires Resolvable(rows, modes)
    ensures forall i :: 0 <= i < |rows| ==> SizesFilled(rows, modes)[i].outletSize.Some?
  {
  }

  /** Filling a frame that has no missing size changes nothing, so the fill is idempotent. */
  lemma SizesFilledIdempotent(rows: seq<Record>, modes: map<string, string>)
    requires Resolvable(rows, modes)
    ensures Resolvable(SizesFilled(rows, modes), modes)
    ensures SizesFilled(SizesFilled(rows, modes), modes) == SizesFilled(rows, modes)
  {
  }

  /** Whether every missing size can be looked up: a scan of the frame. */
  method CanFillSizes(rows: array<Record>, modes: map<string, string>) returns (ok: bool)
    ensures ok == Resolvable(rows[..], modes)
  {
    var i := 0;
    while i < rows.Length
      invariant 0 <= i <= rows.Length
      invariant Resolvable(rows[..i], modes)
    {
      if rows[i].outletSize.None? && rows[i].outletType !in modes {
        assert rows[..][i] == rows[i];
        return false;
      }
      assert rows[..i + 1] == rows[..i] + [rows[i]];
      i := i + 1;
    }
    assert rows[..i] == rows[..];
    return true;
  }

  /** The `.loc` assignment that gives each row with a missing size the mode
      table's entry for its outlet type.  The lookups are all made before
      anything is assigned, so an outlet type
      absent from the table raises (a KeyError) and leaves the frame as it was;
      otherwise every missing size is filled. */
  method FillOutletSize(rows: array<Record>, modes: map<string, string>) returns (ok: bool)
    modifies rows
    ensures ok == Resolvable(old(rows[..]), modes)
    ensures ok ==> rows[..] == SizesFilled(old(rows[..]), modes)
    ensures !ok ==> rows[..] == old(rows[..])
  {
    ok := CanFillSizes(rows, modes);
    if !ok {
      return;
    }
    var i := 0;
    while i < rows.Length
      invariant 0 <= i <= rows.Length
      invariant forall k :: 0 <= k < i ==> rows[k] == FillSize(old(rows[k]), modes)
      invariant forall k :: i <= k < rows.Length ==> rows[k] == old(rows[k])
    {
      assert old(rows[..])[i] == rows[i];
      rows[i] := FillSize(rows[i], modes);
      i := i + 1;
    }
  }
}
