/**
 * The consumable-table builder: prefix every curated table's columns with its
 * entity, join the five entities onto sales, total the sale quantities per
 * country and currency, derive the four ratio features and select the output
 * columns.
 */
module Transformer {
  import opened Common
  import opened Tables
  import opened Frames

  // ---------------------------------------------------------------------------
  // Column prefixes

  function Upper(c: char): char {
    if 'a' <= c <= 'z' then (c as int - 32) as char else c
  }

  function Lower(c: char): char {
    if 'A' <= c <= 'Z' then (c as int + 32) as char else c
  }

  /** str.capitalize on ASCII text: the first letter upper-case, the rest lower-case. */
  function Capitalize(s: string): string {
    if s == [] then []
    else [Upper(s[0])] + seq(|s| - 1, i requires 0 <= i < |s| - 1 => Lower(s[i + 1]))
  }

  /** s[:-1]: everything but the last character (nothing for the empty string). */
  function DropLast(s: string): string {
    if s == [] then [] else s[..|s| - 1]
  }

  /**
   * The prefix of an entity's columns: the file name capitalised minus its last
   * letter (the plural "s"), except that "countries" gives "Country".
   */
  function ColumnPrefix(jsonFileName: string): (prefix: string)
    ensures jsonFileName == "countries" ==> prefix == "Country"
    ensures jsonFileName != "countries" ==>
      && |prefix| == (if jsonFileName == [] then 0 else |jsonFileName| - 1)
      && (|prefix| > 0 ==> prefix[0] == Upper(jsonFileName[0]))
      && forall i :: 0 < i < |prefix| ==> prefix[i] == Lower(jsonFileName[i])
  {
    var columnPrefix := DropLast(Capitalize(jsonFileName));
    if jsonFileName == "countries" then Capitalize("country") else columnPrefix
  }

  /** The curated tables the pipeline joins, in the order it processes them. */
  const Entities: seq<string> := ["sales", "products", "orders", "customers", "countries"]

  // ---------------------------------------------------------------------------
  // Column renaming

  /**
   * Fills `columnsRenaming` with one entry per column of the frame, mapping the
   * column to the prefixed name; entries for other names are left alone.
   */
  method CreateColumnsRenaming(columnPrefix: string, curatedFlatStructure: Frame, columnsRenaming: map<string, string>)
    returns (updated: map<string, string>)
    ensures updated.Keys == columnsRenaming.Keys + ToSet(curatedFlatStructure.columns)
    ensures forall c :: c in curatedFlatStructure.columns ==> updated[c] == columnPrefix + c
    ensures forall c :: c in columnsRenaming && c !in curatedFlatStructure.columns ==> updated[c] == columnsRenaming[c]
  {
    var columns := curatedFlatStructure.columns;
    updated := columnsRenaming;
    for i := 0 to |columns|
      invariant updated.Keys == columnsRenaming.Keys + ToSet(columns[..i])
      invariant forall c :: c in columns[..i] ==> updated[c] == columnPrefix + c
      invariant forall c :: c in columnsRenaming && c !in columns[..i] ==> updated[c] == columnsRenaming[c]
    {
      assert columns[..i + 1] == columns[..i] + [columns[i]];
      updated := updated[columns[i] := columnPrefix + columns[i]];
    }
    assert columns[..|columns|] == columns;
  }

  /** The renaming a fresh dictionary holds after CreateColumnsRenaming. */
  function PrefixRenaming(cols: seq<string>, prefix: string): map<string, string> {
    map c | c in cols :: prefix + c
  }

  function PrefixedColumns(cols: seq<string>, prefix: string): seq<string> {
    seq(|cols|, i requires 0 <= i < |cols| => prefix + cols[i])
  }

  lemma PrefixInjective(prefix: string, a: string, b: string)
    requires prefix + a == prefix + b
    ensures a == b
  {
    assert a == (prefix + a)[|prefix|..];
    assert b == (prefix + b)[|prefix|..];
  }

  /** Distinct columns get distinct prefixed names, so the rename never clashes. */
  lemma PrefixRenameSucceeds(f: Frame, prefix: string)
    requires Distinct(f.columns)
    ensures Rename(f, PrefixRenaming(f.columns, prefix)).Success?
    ensures Rename(f, PrefixRenaming(f.columns, prefix)).value.columns == PrefixedColumns(f.columns, prefix)
  {
    var m := PrefixRenaming(f.columns, prefix);
    var cols := RenamedColumns(f.columns, m);
    assert cols == PrefixedColumns(f.columns, prefix);
    forall i, j | 0 <= i < j < |cols| ensures cols[i] != cols[j] {
      if cols[i] == cols[j] {
        PrefixInjective(prefix, f.columns[i], f.columns[j]);
      }
    }
  }

  /** An entity's table with every column prefixed. */
  function PrefixRenamedFrame(name: string, f: Frame): Frame
    requires Distinct(f.columns)
  {
    PrefixRenameSucceeds(f, ColumnPrefix(name));
    Rename(f, PrefixRenaming(f.columns, ColumnPrefix(name))).value
  }

  predicate DistinctColumns(tables: map<string, Frame>) {
    forall name :: name in tables ==> Distinct(tables[name].columns)
  }

  /** The dictionary of curated tables after the renaming loop. */
  function PrefixRenamedTables(tables: map<string, Frame>): map<string, Frame>
    requires DistinctColumns(tables)
  {
    map name | name in tables :: PrefixRenamedFrame(name, tables[name])
  }

  /** The special case: sales' own key "SaleSaleId" goes back to "SaleId". */
  function SalesWithKeyRestored(tables: map<string, Frame>): Result<Frame, TransformError> {
    if "sales" !in tables then Failure(MissingEntity("sales"))
    else Rename(tables["sales"], map["SaleSaleId" := "SaleId"])
  }

  /** The caller's dictionary after create_consumable_flat_structure has run. */
  function TablesAfterRenaming(tables: map<string, Frame>): map<string, Frame>
    requires DistinctColumns(tables)
  {
    var renamed := PrefixRenamedTables(tables);
    match SalesWithKeyRestored(renamed)
    case Success(sales) => renamed["sales" := sales]
    case Failure(_) => renamed
  }

  // ---------------------------------------------------------------------------
  // Join

  /** The fixed chain of left joins anchored on sales. */
  function JoinCuratedFlatStructures(cfs: map<string, Frame>): Result<Frame, TransformError> {
    if "sales" !in cfs then Failure(MissingEntity("sales"))
    else if "products" !in cfs then Failure(MissingEntity("products"))
    else
      var withProducts :- LeftJoin(cfs["sales"], cfs["products"], "SaleProductId", "ProductProductId");
      if "orders" !in cfs then Failure(MissingEntity("orders"))
      else
        var withOrders :- LeftJoin(withProducts, cfs["orders"], "SaleOrderId", "OrderOrderId");
        if "customers" !in cfs then Failure(MissingEntity("customers"))
        else
          var withCustomers :- LeftJoin(withOrders, cfs["customers"], "OrderCustomerId", "CustomerCustomerId");
          if "countries" !in cfs then Failure(MissingEntity("countries"))
          else LeftJoin(withCustomers, cfs["countries"], "CustomerCountry", "CountryCountry")
  }

  // ---------------------------------------------------------------------------
  // Totals per country and currency

  const TotalColumn := "TotalSaleQuantityPerCountry"
  const TotalsColumns: seq<string> := ["CountryName", "CountryCurrency", TotalColumn]

  /** The group-by key of a joined row. */
  function GroupKey(r: Row): (Value, Value) {
    (Cell(r, "CountryName"), Cell(r, "CountryCurrency"))
  }

  /** A row's SaleQuantity as the sum sees it (null counts as nothing). */
  function Quantity(r: Row): real {
    NumOrZero(Cell(r, "SaleQuantity"))
  }

  /** Some row of `rows` belongs to group `k`. */
  predicate HasKey(rows: seq<Row>, k: (Value, Value)) {
    exists i :: 0 <= i < |rows| && GroupKey(rows[i]) == k
  }

  /** The distinct group keys of `rows`, in order of first appearance. */
  function GroupKeys(rows: seq<Row>): (ks: seq<(Value, Value)>)
    ensures Distinct(ks)
    ensures forall k :: k in ks <==> HasKey(rows, k)
  {
    if rows == [] then []
    else
      var n := |rows| - 1;
      var ks := GroupKeys(rows[..n]);
      assert forall i :: 0 <= i < n ==> rows[..n][i] == rows[i];
      if GroupKey(rows[n]) in ks then ks else ks + [GroupKey(rows[n])]
  }

  /** The sum of SaleQuantity over the rows of group `k`. */
  function GroupSum(rows: seq<Row>, k: (Value, Value)): real {
    if rows == [] then 0.0
    else
      var n := |rows| - 1;
      GroupSum(rows[..n], k) + (if GroupKey(rows[n]) == k then Quantity(rows[n]) else 0.0)
  }

  /** The sum of SaleQuantity over all rows. */
  function TotalQuantity(rows: seq<Row>): real {
    if rows == [] then 0.0 else TotalQuantity(rows[..|rows| - 1]) + Quantity(rows[|rows| - 1])
  }

  /** The totals row of group `k`. */
  function TotalsRow(k: (Value, Value), total: real): (row: Row)
    ensures row.Keys == ToSet(TotalsColumns)
    ensures GroupKey(row) == k && Cell(row, TotalColumn) == Dec(total)
  {
    var vals := [k.0, k.1, Dec(total)];
    RowFromAt(TotalsColumns, vals);
    assert TotalsColumns[0] == "CountryName" && TotalsColumns[1] == "CountryCurrency" && TotalsColumns[2] == TotalColumn;
    RowFrom(TotalsColumns, vals)
  }

  /**
   * group_by(["CountryName", "CountryCurrency"]).agg(sum of SaleQuantity): one
   * row per group, holding the group's total (an exact integer sum, so the cast
   * to a scale-6 decimal loses nothing).
   */
  function TotalQuantitiesPerCountryAndCurrency(filtered: Frame): (r: Result<Frame, TransformError>)
    ensures r.Success? <==> "CountryName" in filtered.columns && "CountryCurrency" in filtered.columns
                            && "SaleQuantity" in filtered.columns
    ensures r.Success? ==>
      && WellFormed(r.value)
      && r.value.columns == TotalsColumns
      && (forall i, j :: 0 <= i < j < |r.value.rows| ==> GroupKey(r.value.rows[i]) != GroupKey(r.value.rows[j]))
      && (forall k :: HasKey(r.value.rows, k) <==> HasKey(filtered.rows, k))
      && forall i :: 0 <= i < |r.value.rows| ==>
           Cell(r.value.rows[i], TotalColumn) == Dec(GroupSum(filtered.rows, GroupKey(r.value.rows[i])))
  {
    if "CountryName" !in filtered.columns || "CountryCurrency" !in filtered.columns
       || "SaleQuantity" !in filtered.columns then Failure(ColumnNotFound)
    else
      var ks := GroupKeys(filtered.rows);
      var rows := seq(|ks|, i requires 0 <= i < |ks| => TotalsRow(ks[i], GroupSum(filtered.rows, ks[i])));
      assert forall i :: 0 <= i < |ks| ==> GroupKey(rows[i]) == ks[i];
      assert forall k :: HasKey(rows, k) <==> k in ks by {
        forall k | HasKey(rows, k) ensures k in ks {
          var i :| 0 <= i < |rows| && GroupKey(rows[i]) == k;
          assert ks[i] == k;
        }
        forall k | k in ks ensures HasKey(rows, k) {
          var i :| 0 <= i < |ks| && ks[i] == k;
          assert GroupKey(rows[i]) == k;
        }
      }
      Success(Frame(TotalsColumns, rows))
  }

  // ---------------------------------------------------------------------------
  // Features

  /**
   * CountryQuantityOverTotalQuantityPercentage: the row's country total (joined
   * in by CountryName) over the sum of SaleQuantity over the whole table.
   */
  function AddFeatureCountryQuantityOverTotalQuantityPercentage(joined: Frame, totals: Frame, round6: real -> real)
    : Result<Frame, TransformError>
  {
    if "SaleQuantity" !in joined.columns then Failure(ColumnNotFound)
    else
      var totalQuantity := TotalQuantity(joined.rows);
      var totalQuantityPerCountry :- Select(totals, ["CountryName", TotalColumn]);
      var withTotals :- LeftJoin(joined, totalQuantityPerCountry, "CountryName", "CountryName");
      WithColumn(withTotals, [TotalColumn], "CountryQuantityOverTotalQuantityPercentage",
                 r => Ratio(Cell(r, TotalColumn), Dec(totalQuantity), round6))
  }

  /**
   * QuantityOverTotalCountryQuantityPercentage: the row's SaleQuantity over its
   * country total. The second join re-adds CountryCurrency and the total, which
   * get the "_right" suffix; the ratio reads the total joined in before.
   */
  function AddFeatureQuantityOverTotalCountryQuantityPercentage(joined: Frame, totals: Frame, round6: real -> real)
    : Result<Frame, TransformError>
  {
    var withTotals :- LeftJoin(joined, totals, "CountryName", "CountryName");
    WithColumn(withTotals, ["SaleQuantity", TotalColumn], "QuantityOverTotalCountryQuantityPercentage",
               r => Ratio(Cell(r, "SaleQuantity"), Cell(r, TotalColumn), round6))
  }

  /** A totals row whose currency is one of the selected ones. */
  predicate SelectedCurrency(v: Value, currencies: seq<string>) {
    v.Str? && v.s in currencies
  }

  /** The sum of the group totals whose currency is selected. */
  function MainCountriesQuantity(totalsRows: seq<Row>, currencies: seq<string>): real {
    if totalsRows == [] then 0.0
    else
      var n := |totalsRows| - 1;
      MainCountriesQuantity(totalsRows[..n], currencies)
        + (if SelectedCurrency(Cell(totalsRows[n], "CountryCurrency"), currencies)
           then NumOrZero(Cell(totalsRows[n], TotalColumn)) else 0.0)
  }

  /**
   * QuantityOverMainCountriesQuantityPercentage: the row's SaleQuantity over the
   * total of the countries whose currency is selected, brought in as a one-row
   * frame by a cross join.
   */
  function AddFeatureQuantityOverMainCountriesQuantityPercentage(
    joined: Frame, totals: Frame, currenciesToSelect: seq<string>, round6: real -> real)
    : Result<Frame, TransformError>
  {
    if "CountryCurrency" !in totals.columns || TotalColumn !in totals.columns then Failure(ColumnNotFound)
    else
      var mainTotal := MainCountriesQuantity(totals.rows, currenciesToSelect);
      var totalMainCountriesQuantity := Frame(["TotalSaleQuantity"], [map["TotalSaleQuantity" := Dec(mainTotal)]]);
      var crossed :- CrossJoin(joined, totalMainCountriesQuantity);
      WithColumn(crossed, ["SaleQuantity", "TotalSaleQuantity"], "QuantityOverMainCountriesQuantityPercentage",
                 r => Ratio(Cell(r, "SaleQuantity"), Cell(r, "TotalSaleQuantity"), round6))
  }

  /** ProductWeightGramsPerSaleQuantity: ProductWeightGrams over SaleQuantity. */
  function AddFeatureProductWeightGramsPerSaleQuantity(joined: Frame, round6: real -> real)
    : Result<Frame, TransformError>
  {
    WithColumn(joined, ["ProductWeightGrams", "SaleQuantity"], "ProductWeightGramsPerSaleQuantity",
               r => Ratio(Cell(r, "ProductWeightGrams"), Cell(r, "SaleQuantity"), round6))
  }

  /** The feature functions applied in a loop, each to the previous one's output. */
  function FeatureFunctions(): seq<(Frame, Frame, real -> real) -> Result<Frame, TransformError>> {
    [AddFeatureCountryQuantityOverTotalQuantityPercentage, AddFeatureQuantityOverTotalCountryQuantityPercentage]
  }

  function ApplyFeatures(fs: seq<(Frame, Frame, real -> real) -> Result<Frame, TransformError>>,
                         joined: Frame, totals: Frame, round6: real -> real): Result<Frame, TransformError>
  {
    if fs == [] then Success(joined)
    else
      var before :- ApplyFeatures(fs[..|fs| - 1], joined, totals, round6);
      fs[|fs| - 1](before, totals, round6)
  }

  lemma {:induction false} ApplyFeaturesStops(fs: seq<(Frame, Frame, real -> real) -> Result<Frame, TransformError>>,
                                              k: nat, joined: Frame, totals: Frame, round6: real -> real)
    requires k <= |fs|
    requires ApplyFeatures(fs[..k], joined, totals, round6).Failure?
    ensures ApplyFeatures(fs, joined, totals, round6) == ApplyFeatures(fs[..k], joined, totals, round6)
  {
    if k < |fs| {
      assert fs[..|fs| - 1][..k] == fs[..k];
      ApplyFeaturesStops(fs[..|fs| - 1], k, joined, totals, round6);
    } else {
      assert fs[..k] == fs;
    }
  }

  // ---------------------------------------------------------------------------
  // The whole builder

  /** The consumable table made from the curated tables. */
  function ConsumableFlatStructure(curated: map<string, Frame>, consumableColumnsToSelect: seq<string>,
                                   currenciesToSelect: seq<string>, round6: real -> real): Result<Frame, TransformError>
    requires DistinctColumns(curated)
  {
    var renamed := PrefixRenamedTables(curated);
    var sales :- SalesWithKeyRestored(renamed);
    var joined :- JoinCuratedFlatStructures(renamed["sales" := sales]);
    var totals :- TotalQuantitiesPerCountryAndCurrency(joined);
    var withShares :- ApplyFeatures(FeatureFunctions(), joined, totals, round6);
    var withMain :- AddFeatureQuantityOverMainCountriesQuantityPercentage(withShares, totals, currenciesToSelect, round6);
    var withWeight :- AddFeatureProductWeightGramsPerSaleQuantity(withMain, round6);
    Select(withWeight, consumableColumnsToSelect)
  }

  /** The caller's dictionary of curated tables, which the builder overwrites entry by entry. */
  class CuratedFlatStructures {
    var tables: map<string, Frame>

    constructor (tables: map<string, Frame>)
      ensures this.tables == tables
    {
      this.tables := tables;
    }
  }

  /** The renaming loop: every table's columns get its entity's prefix. */
  method RenameColumns(curatedFlatStructures: CuratedFlatStructures)
    requires DistinctColumns(curatedFlatStructures.tables)
    modifies curatedFlatStructures
    ensures curatedFlatStructures.tables == PrefixRenamedTables(old(curatedFlatStructures.tables))
  {
    ghost var original := curatedFlatStructures.tables;
    var columnsRenaming: map<string, string> := map[];
    var remaining := curatedFlatStructures.tables.Keys;
    while remaining != {}
      invariant remaining <= original.Keys
      invariant curatedFlatStructures.tables.Keys == original.Keys
      invariant forall name :: name in remaining ==> curatedFlatStructures.tables[name] == original[name]
      invariant forall name :: name in original && name !in remaining ==>
        curatedFlatStructures.tables[name] == PrefixRenamedFrame(name, original[name])
      invariant columnsRenaming == map[]
      decreases remaining
    {
      var jsonFileName :| jsonFileName in remaining;
      var curatedFlatStructure := curatedFlatStructures.tables[jsonFileName];
      assert Distinct(curatedFlatStructure.columns);
      var columnPrefix := ColumnPrefix(jsonFileName);
      columnsRenaming := CreateColumnsRenaming(columnPrefix, curatedFlatStructure, columnsRenaming);
      assert columnsRenaming == PrefixRenaming(curatedFlatStructure.columns, columnPrefix);
      var renamed := Rename(curatedFlatStructure, columnsRenaming);
      PrefixRenameSucceeds(curatedFlatStructure, columnPrefix);
      assert renamed == Success(PrefixRenamedFrame(jsonFileName, curatedFlatStructure));
      curatedFlatStructures.tables := curatedFlatStructures.tables[jsonFileName := renamed.value];
      columnsRenaming := map[];
      remaining := remaining - {jsonFileName};
    }
  }

  /** The loop over the feature functions, stopping at the first that fails. */
  method AddFeatures(joined: Frame, totals: Frame, round6: real -> real) returns (r: Result<Frame, TransformError>)
    ensures r == ApplyFeatures(FeatureFunctions(), joined, totals, round6)
  {
    var addFeatureFunctions := FeatureFunctions();
    var current := joined;
    for i := 0 to |addFeatureFunctions|
      invariant ApplyFeatures(addFeatureFunctions[..i], joined, totals, round6) == Success(current)
    {
      assert addFeatureFunctions[..i + 1][..i] == addFeatureFunctions[..i];
      var step := addFeatureFunctions[i](current, totals, round6);
      if step.Failure? {
        ApplyFeaturesStops(addFeatureFunctions, i + 1, joined, totals, round6);
        return Failure(step.error);
      }
      current := step.value;
    }
    assert addFeatureFunctions[..|addFeatureFunctions|] == addFeatureFunctions;
    return Success(current);
  }

  method CreateConsumableFlatStructure(curatedFlatStructures: CuratedFlatStructures,
                                       consumableColumnsToSelect: seq<string>,
                                       currenciesToSelect: seq<string>,
                                       round6: real -> real)
    returns (r: Result<Frame, TransformError>)
    requires forall name :: name in curatedFlatStructures.tables ==> WellFormed(curatedFlatStructures.tables[name])
    modifies curatedFlatStructures
    ensures DistinctColumns(old(curatedFlatStructures.tables))
    ensures curatedFlatStructures.tables == TablesAfterRenaming(old(curatedFlatStructures.tables))
    ensures r == ConsumableFlatStructure(old(curatedFlatStructures.tables), consumableColumnsToSelect,
                                         currenciesToSelect, round6)
  {
    // Rename columns
    RenameColumns(curatedFlatStructures);

    // Special case of renaming column
    var sales :- SalesWithKeyRestored(curatedFlatStructures.tables);
    curatedFlatStructures.tables := curatedFlatStructures.tables["sales" := sales];

    // Join
    var joined :- JoinCuratedFlatStructures(curatedFlatStructures.tables);

    // Add features
    var totals :- TotalQuantitiesPerCountryAndCurrency(joined);
    joined :- AddFeatures(joined, totals, round6);
    joined :- AddFeatureQuantityOverMainCountriesQuantityPercentage(joined, totals, currenciesToSelect, round6);
    joined :- AddFeatureProductWeightGramsPerSaleQuantity(joined, round6);

    // Select attributes
    r := Select(joined, consumableColumnsToSelect);
  }
}
