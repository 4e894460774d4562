/**
 * What the consumable-table builder guarantees: prefixes and renames that
 * never clash, joins that keep every sale, group totals that add up, and the
 * value every feature column takes on each row.
 */
module TransformerProperties {
  import opened Common
  import opened Tables
  import opened Frames
  import opened Transformer

  // ---------------------------------------------------------------------------
  // Prefixes and renaming

  /** The prefix of an entity other than "countries", read off character by character. */
  lemma PrefixIs(name: string, prefix: string)
    requires name != "countries" && |name| == |prefix| + 1 && |prefix| > 0
    requires prefix[0] == Upper(name[0])
    requires forall i :: 0 < i < |prefix| ==> prefix[i] == Lower(name[i])
    ensures ColumnPrefix(name) == prefix
  {
  }

  lemma SalesPrefix()
    ensures ColumnPrefix("sales") == "Sale"
  {
    PrefixIs("sales", "Sale");
  }

  lemma ProductsPrefix()
    ensures ColumnPrefix("products") == "Product"
  {
    PrefixIs("products", "Product");
  }

  lemma OrdersPrefix()
    ensures ColumnPrefix("orders") == "Order"
  {
    PrefixIs("orders", "Order");
  }

  lemma CustomersPrefix()
    ensures ColumnPrefix("customers") == "Customer"
  {
    PrefixIs("customers", "Customer");
  }

  /** The prefixes of the five entities. */
  lemma EntityPrefixes()
    ensures ColumnPrefix("sales") == "Sale"
    ensures ColumnPrefix("products") == "Product"
    ensures ColumnPrefix("orders") == "Order"
    ensures ColumnPrefix("customers") == "Customer"
    ensures ColumnPrefix("countries") == "Country"
  {
    SalesPrefix();
    ProductsPrefix();
    OrdersPrefix();
    CustomersPrefix();
  }

  /** The first two letters of an entity's prefix. */
  function Initials(e: string): string {
    if e == "sales" then "Sa"
    else if e == "products" then "Pr"
    else if e == "orders" then "Or"
    else if e == "customers" then "Cu"
    else "Co"
  }

  lemma PrefixInitials(e: string)
    requires e in Entities
    ensures |ColumnPrefix(e)| >= 2 && ColumnPrefix(e)[..2] == Initials(e)
  {
    EntityPrefixes();
    if e == "sales" {
      assert ColumnPrefix(e)[..2] == "Sale"[..2];
    } else if e == "products" {
      assert ColumnPrefix(e)[..2] == "Product"[..2];
    } else if e == "orders" {
      assert ColumnPrefix(e)[..2] == "Order"[..2];
    } else if e == "customers" {
      assert ColumnPrefix(e)[..2] == "Customer"[..2];
    } else {
      assert e == "countries";
      assert ColumnPrefix(e)[..2] == "Country"[..2];
    }
  }

  lemma InitialsDistinct(e1: string, e2: string)
    requires e1 in Entities && e2 in Entities && e1 != e2
    ensures Initials(e1) != Initials(e2)
  {
  }

  /** Two different entities never give a column the same prefixed name. */
  lemma PrefixedNamesDisjoint(e1: string, e2: string, c1: string, c2: string)
    requires e1 in Entities && e2 in Entities && e1 != e2
    ensures ColumnPrefix(e1) + c1 != ColumnPrefix(e2) + c2
  {
    PrefixInitials(e1);
    PrefixInitials(e2);
    InitialsDistinct(e1, e2);
    var p1, p2 := ColumnPrefix(e1), ColumnPrefix(e2);
    assert (p1 + c1)[..2] == p1[..2];
    assert (p2 + c2)[..2] == p2[..2];
  }

  /**
   * The renaming loop turns an entity's table into one whose columns are the
   * old ones with the prefix in front, in the same order, each cell moving with
   * its column.
   */
  lemma PrefixRenamedCells(name: string, f: Frame)
    requires Distinct(f.columns)
    ensures var g := PrefixRenamedFrame(name, f);
      && WellFormed(g)
      && g.columns == PrefixedColumns(f.columns, ColumnPrefix(name))
      && |g.rows| == |f.rows|
      && forall i, j :: 0 <= i < |f.rows| && 0 <= j < |f.columns| ==>
           Cell(g.rows[i], ColumnPrefix(name) + f.columns[j]) == Cell(f.rows[i], f.columns[j])
  {
    PrefixRenameSucceeds(f, ColumnPrefix(name));
  }

  /** The sales columns once "SaleSaleId" is renamed back to "SaleId". */
  function RestoredSalesColumns(cols: seq<string>): seq<string> {
    seq(|cols|, j requires 0 <= j < |cols| => if cols[j] == "SaleId" then "SaleId" else "Sale" + cols[j])
  }

  lemma RestoredSalesColumnsAre(cols: seq<string>)
    ensures RenamedColumns(PrefixedColumns(cols, "Sale"), map["SaleSaleId" := "SaleId"]) == RestoredSalesColumns(cols)
  {
    var renamed := RenamedColumns(PrefixedColumns(cols, "Sale"), map["SaleSaleId" := "SaleId"]);
    assert "Sale" + "SaleId" == "SaleSaleId";
    forall j | 0 <= j < |cols| ensures renamed[j] == RestoredSalesColumns(cols)[j] {
      if cols[j] != "SaleId" && "Sale" + cols[j] == "SaleSaleId" {
        PrefixInjective("Sale", cols[j], "SaleId");
      }
    }
  }

  lemma RestoredSalesColumnsDistinct(cols: seq<string>)
    requires Distinct(cols) && "Id" !in cols
    ensures Distinct(RestoredSalesColumns(cols))
  {
    var out := RestoredSalesColumns(cols);
    assert "Sale" + "Id" == "SaleId";
    forall a, b | 0 <= a < b < |out| ensures out[a] != out[b] {
      var x, y := cols[a], cols[b];
      if out[a] == out[b] {
        if x != "SaleId" && y != "SaleId" {
          PrefixInjective("Sale", x, y);
        } else if x == "SaleId" {
          PrefixInjective("Sale", "Id", y);
        } else {
          PrefixInjective("Sale", x, "Id");
        }
      }
    }
  }

  /** A sales column "Id" becomes "SaleId" too, so it clashes with the restored key. */
  lemma RestoredSalesColumnsClash(cols: seq<string>)
    requires "Id" in cols && "SaleId" in cols
    ensures !Distinct(RestoredSalesColumns(cols))
  {
    var a :| 0 <= a < |cols| && cols[a] == "Id";
    var b :| 0 <= b < |cols| && cols[b] == "SaleId";
    assert "Sale" + "Id" == "SaleId";
    assert RestoredSalesColumns(cols)[a] == RestoredSalesColumns(cols)[b];
  }

  /**
   * The sales table after both renames: "SaleId" comes back unprefixed and every
   * other column keeps the "Sale" prefix. Without a "SaleId" column the second
   * rename fails, and so it does when sales also has an "Id" column, which
   * became "SaleId" as well.
   */
  lemma SalesKeyRestored(sales: Frame)
    requires Distinct(sales.columns)
    ensures var r := Rename(PrefixRenamedFrame("sales", sales), map["SaleSaleId" := "SaleId"]);
      && (r.Success? <==> "SaleId" in sales.columns && "Id" !in sales.columns)
      && (r.Success? ==> r.value.columns == RestoredSalesColumns(sales.columns) && |r.value.rows| == |sales.rows|)
  {
    EntityPrefixes();
    PrefixRenamedCells("sales", sales);
    var g := PrefixRenamedFrame("sales", sales);
    RestoredSalesColumnsAre(sales.columns);
    assert "Sale" + "SaleId" == "SaleSaleId";
    if "SaleId" in sales.columns {
      var k :| 0 <= k < |sales.columns| && sales.columns[k] == "SaleId";
      assert g.columns[k] == "SaleSaleId";
      if "Id" in sales.columns {
        RestoredSalesColumnsClash(sales.columns);
      } else {
        RestoredSalesColumnsDistinct(sales.columns);
      }
    } else {
      forall j | 0 <= j < |g.columns| ensures g.columns[j] != "SaleSaleId" {
        if g.columns[j] == "SaleSaleId" {
          PrefixInjective("Sale", sales.columns[j], "SaleId");
        }
      }
      assert "SaleSaleId" !in ToSet(g.columns);
    }
  }

  // ---------------------------------------------------------------------------
  // The join chain

  /** Every join is a left join, so no sale is ever dropped. */
  lemma JoinKeepsEverySale(cfs: map<string, Frame>)
    requires JoinCuratedFlatStructures(cfs).Success?
    ensures "sales" in cfs
    ensures |JoinCuratedFlatStructures(cfs).value.rows| >= |cfs["sales"].rows|
  {
    var j1 := LeftJoin(cfs["sales"], cfs["products"], "SaleProductId", "ProductProductId").value;
    LeftJoinKeepsEveryRow(cfs["sales"], cfs["products"], "SaleProductId", "ProductProductId");
    var j2 := LeftJoin(j1, cfs["orders"], "SaleOrderId", "OrderOrderId").value;
    LeftJoinKeepsEveryRow(j1, cfs["orders"], "SaleOrderId", "OrderOrderId");
    var j3 := LeftJoin(j2, cfs["customers"], "OrderCustomerId", "CustomerCustomerId").value;
    LeftJoinKeepsEveryRow(j2, cfs["customers"], "OrderCustomerId", "CustomerCustomerId");
    LeftJoinKeepsEveryRow(j3, cfs["countries"], "CustomerCountry", "CountryCountry");
  }

  /** With unique keys on the four right-hand tables, one joined row per sale. */
  lemma JoinedRowCount(cfs: map<string, Frame>)
    requires JoinCuratedFlatStructures(cfs).Success?
    requires "products" in cfs && KeyUnique(cfs["products"].rows, "ProductProductId")
    requires "orders" in cfs && KeyUnique(cfs["orders"].rows, "OrderOrderId")
    requires "customers" in cfs && KeyUnique(cfs["customers"].rows, "CustomerCustomerId")
    requires "countries" in cfs && KeyUnique(cfs["countries"].rows, "CountryCountry")
    ensures "sales" in cfs
    ensures |JoinCuratedFlatStructures(cfs).value.rows| == |cfs["sales"].rows|
  {
    var j1 := LeftJoin(cfs["sales"], cfs["products"], "SaleProductId", "ProductProductId").value;
    LeftJoinUnique(cfs["sales"], cfs["products"], "SaleProductId", "ProductProductId");
    var j2 := LeftJoin(j1, cfs["orders"], "SaleOrderId", "OrderOrderId").value;
    LeftJoinUnique(j1, cfs["orders"], "SaleOrderId", "OrderOrderId");
    var j3 := LeftJoin(j2, cfs["customers"], "OrderCustomerId", "CustomerCustomerId").value;
    LeftJoinUnique(j2, cfs["customers"], "OrderCustomerId", "CustomerCustomerId");
    LeftJoinUnique(j3, cfs["countries"], "CustomerCountry", "CountryCountry");
  }

  // ---------------------------------------------------------------------------
  // Group totals

  /** The sum of SaleQuantity over the rows whose group key satisfies `p`. */
  function KeyedQuantity(rows: seq<Row>, p: ((Value, Value)) -> bool): real {
    if rows == [] then 0.0
    else
      var n := |rows| - 1;
      KeyedQuantity(rows[..n], p) + (if p(GroupKey(rows[n])) then Quantity(rows[n]) else 0.0)
  }

  /** The sum of the group sums of the keys in `ks` that satisfy `p`. */
  function KeyedGroupSums(ks: seq<(Value, Value)>, rows: seq<Row>, p: ((Value, Value)) -> bool): real {
    if ks == [] then 0.0
    else
      var n := |ks| - 1;
      KeyedGroupSums(ks[..n], rows, p) + (if p(ks[n]) then GroupSum(rows, ks[n]) else 0.0)
  }

  lemma {:induction false} KeyedGroupSumsOfNoRows(ks: seq<(Value, Value)>, p: ((Value, Value)) -> bool)
    ensures KeyedGroupSums(ks, [], p) == 0.0
  {
    if ks != [] {
      KeyedGroupSumsOfNoRows(ks[..|ks| - 1], p);
    }
  }

  /** One more row adds its quantity to exactly the one group it belongs to. */
  lemma {:induction false} KeyedGroupSumsSnoc(ks: seq<(Value, Value)>, rows: seq<Row>, r: Row, p: ((Value, Value)) -> bool)
    requires Distinct(ks)
    ensures KeyedGroupSums(ks, rows + [r], p)
         == KeyedGroupSums(ks, rows, p) + (if GroupKey(r) in ks && p(GroupKey(r)) then Quantity(r) else 0.0)
  {
    assert (rows + [r])[..|rows|] == rows;
    if ks != [] {
      var n := |ks| - 1;
      assert Distinct(ks[..n]) by {
        forall a, b | 0 <= a < b < n ensures ks[..n][a] != ks[..n][b] {
          assert ks[..n][a] == ks[a] && ks[..n][b] == ks[b];
        }
      }
      KeyedGroupSumsSnoc(ks[..n], rows, r, p);
      assert GroupKey(r) in ks <==> GroupKey(r) in ks[..n] || GroupKey(r) == ks[n] by {
        assert ks == ks[..n] + [ks[n]];
      }
      assert ks[n] !in ks[..n] by {
        forall a | 0 <= a < n ensures ks[..n][a] != ks[n] {
          assert ks[..n][a] == ks[a];
        }
      }
    }
  }

  /**
   * Summing the group sums over a list of distinct keys that covers every row
   * gives the plain sum over the rows.
   */
  lemma {:induction false} GroupSumsAddUp(ks: seq<(Value, Value)>, rows: seq<Row>, p: ((Value, Value)) -> bool)
    requires Distinct(ks)
    requires forall i :: 0 <= i < |rows| ==> GroupKey(rows[i]) in ks
    ensures KeyedGroupSums(ks, rows, p) == KeyedQuantity(rows, p)
  {
    if rows == [] {
      KeyedGroupSumsOfNoRows(ks, p);
    } else {
      var n := |rows| - 1;
      assert rows == rows[..n] + [rows[n]];
      GroupSumsAddUp(ks, rows[..n], p);
      KeyedGroupSumsSnoc(ks, rows[..n], rows[n], p);
    }
  }

  /** The group key of every totals row, in order. */
  function TotalsKeys(trs: seq<Row>): seq<(Value, Value)> {
    seq(|trs|, j requires 0 <= j < |trs| => GroupKey(trs[j]))
  }

  /** The sum of the TotalSaleQuantityPerCountry cells of the totals rows whose key satisfies `p`. */
  function KeyedTotals(trs: seq<Row>, p: ((Value, Value)) -> bool): real {
    if trs == [] then 0.0
    else
      var n := |trs| - 1;
      KeyedTotals(trs[..n], p) + (if p(GroupKey(trs[n])) then NumOrZero(Cell(trs[n], TotalColumn)) else 0.0)
  }

  lemma {:induction false} KeyedTotalsAreGroupSums(trs: seq<Row>, rows: seq<Row>, p: ((Value, Value)) -> bool)
    requires forall j :: 0 <= j < |trs| ==> Cell(trs[j], TotalColumn) == Dec(GroupSum(rows, GroupKey(trs[j])))
    ensures KeyedTotals(trs, p) == KeyedGroupSums(TotalsKeys(trs), rows, p)
  {
    if trs != [] {
      var n := |trs| - 1;
      assert TotalsKeys(trs)[..n] == TotalsKeys(trs[..n]);
      KeyedTotalsAreGroupSums(trs[..n], rows, p);
    }
  }

  /**
   * Summing the totals table's TotalSaleQuantityPerCountry over the groups that
   * satisfy `p` gives the sum of SaleQuantity over the joined rows of those groups.
   */
  lemma TotalsAddUp(joined: Frame, totals: Frame, p: ((Value, Value)) -> bool)
    requires TotalQuantitiesPerCountryAndCurrency(joined) == Success(totals)
    ensures KeyedTotals(totals.rows, p) == KeyedQuantity(joined.rows, p)
  {
    var ks := TotalsKeys(totals.rows);
    KeyedTotalsAreGroupSums(totals.rows, joined.rows, p);
    forall i | 0 <= i < |joined.rows| ensures GroupKey(joined.rows[i]) in ks {
      assert HasKey(joined.rows, GroupKey(joined.rows[i]));
      var j :| 0 <= j < |totals.rows| && GroupKey(totals.rows[j]) == GroupKey(joined.rows[i]);
      assert ks[j] == GroupKey(joined.rows[i]);
    }
    GroupSumsAddUp(ks, joined.rows, p);
  }

  /** Every group. */
  const AnyKey: ((Value, Value)) -> bool := k => true

  lemma {:induction false} KeyedQuantityOfAll(rows: seq<Row>)
    ensures KeyedQuantity(rows, AnyKey) == TotalQuantity(rows)
  {
    if rows != [] {
      KeyedQuantityOfAll(rows[..|rows| - 1]);
    }
  }

  /** The country totals add up to the sum of SaleQuantity over the whole joined table. */
  lemma CountryTotalsAddUp(joined: Frame, totals: Frame)
    requires TotalQuantitiesPerCountryAndCurrency(joined) == Success(totals)
    ensures KeyedTotals(totals.rows, AnyKey) == TotalQuantity(joined.rows)
  {
    TotalsAddUp(joined, totals, AnyKey);
    KeyedQuantityOfAll(joined.rows);
  }

  /** The group key's currency is one of the selected ones. */
  function SelectedKey(currencies: seq<string>): ((Value, Value)) -> bool {
    (k: (Value, Value)) => SelectedCurrency(k.1, currencies)
  }

  lemma {:induction false} MainCountriesAreKeyedTotals(trs: seq<Row>, currencies: seq<string>)
    ensures MainCountriesQuantity(trs, currencies) == KeyedTotals(trs, SelectedKey(currencies))
  {
    if trs != [] {
      MainCountriesAreKeyedTotals(trs[..|trs| - 1], currencies);
    }
  }

  /**
   * The main-countries denominator is the sum of SaleQuantity over the joined
   * rows whose currency is selected.
   */
  lemma MainCountriesTotal(joined: Frame, totals: Frame, currencies: seq<string>)
    requires TotalQuantitiesPerCountryAndCurrency(joined) == Success(totals)
    ensures MainCountriesQuantity(totals.rows, currencies) == KeyedQuantity(joined.rows, SelectedKey(currencies))
  {
    MainCountriesAreKeyedTotals(totals.rows, currencies);
    TotalsAddUp(joined, totals, SelectedKey(currencies));
  }

  // ---------------------------------------------------------------------------
  // Shares

  lemma SelfRatio(d: real)
    requires d != 0.0
    ensures d / d == 1.0
  {
  }

  /** The exact shares Quantity / d of the rows of group `k`, summed. */
  function GroupShares(rows: seq<Row>, k: (Value, Value), d: real): real
    requires d != 0.0
  {
    if rows == [] then 0.0
    else
      var n := |rows| - 1;
      GroupShares(rows[..n], k, d) + (if GroupKey(rows[n]) == k then Quantity(rows[n]) / d else 0.0)
  }

  lemma {:induction false} GroupSharesScale(rows: seq<Row>, k: (Value, Value), d: real)
    requires d != 0.0
    ensures GroupShares(rows, k, d) == GroupSum(rows, k) / d
  {
    if rows != [] {
      var n := |rows| - 1;
      GroupSharesScale(rows[..n], k, d);
      var a, b := GroupSum(rows[..n], k), (if GroupKey(rows[n]) == k then Quantity(rows[n]) else 0.0);
      assert a / d + b / d == (a + b) / d;
    }
  }

  /**
   * Within one country the exact shares SaleQuantity / country total of its
   * rows add up to 1.
   */
  lemma RowSharesSumToOne(rows: seq<Row>, k: (Value, Value))
    requires GroupSum(rows, k) != 0.0
    ensures GroupShares(rows, k, GroupSum(rows, k)) == 1.0
  {
    var d := GroupSum(rows, k);
    GroupSharesScale(rows, k, d);
    SelfRatio(d);
  }

  /** The exact shares total / d of the totals rows, summed. */
  function CountryShares(trs: seq<Row>, d: real): real
    requires d != 0.0
  {
    if trs == [] then 0.0
    else
      var n := |trs| - 1;
      CountryShares(trs[..n], d) + NumOrZero(Cell(trs[n], TotalColumn)) / d
  }

  lemma {:induction false} CountrySharesScale(trs: seq<Row>, d: real)
    requires d != 0.0
    ensures CountryShares(trs, d) == KeyedTotals(trs, AnyKey) / d
  {
    if trs != [] {
      var n := |trs| - 1;
      CountrySharesScale(trs[..n], d);
      var a, b := KeyedTotals(trs[..n], AnyKey), NumOrZero(Cell(trs[n], TotalColumn));
      assert a / d + b / d == (a + b) / d;
    }
  }

  /** The exact country shares country total / overall total add up to 1. */
  lemma CountrySharesSumToOne(joined: Frame, totals: Frame)
    requires TotalQuantitiesPerCountryAndCurrency(joined) == Success(totals)
    requires TotalQuantity(joined.rows) != 0.0
    ensures CountryShares(totals.rows, TotalQuantity(joined.rows)) == 1.0
  {
    CountryTotalsAddUp(joined, totals);
    var d := TotalQuantity(joined.rows);
    CountrySharesScale(totals.rows, d);
    SelfRatio(d);
  }

  // ---------------------------------------------------------------------------
  // Feature columns

  /**
   * Every country name has one currency. The feature joins key on CountryName
   * alone, so without this a sale would meet one totals row per currency.
   */
  predicate OneCurrencyPerCountry(rows: seq<Row>) {
    forall i, j :: 0 <= i < |rows| && 0 <= j < |rows| && Cell(rows[i], "CountryName") == Cell(rows[j], "CountryName") ==>
      Cell(rows[i], "CountryCurrency") == Cell(rows[j], "CountryCurrency")
  }

  /** The country total row i of the joined table should see: null when it has no country. */
  function CountryTotalOf(rows: seq<Row>, i: int): Value
    requires 0 <= i < |rows|
  {
    if Cell(rows[i], "CountryName") == Null then Null else Dec(GroupSum(rows, GroupKey(rows[i])))
  }

  /** `t` holds one row per country name, carrying the country's total in `joined`. */
  predicate CountryTotalsLookup(t: Frame, joined: Frame) {
    && KeyUnique(t.rows, "CountryName")
    && forall i :: 0 <= i < |joined.rows| && Cell(joined.rows[i], "CountryName") != Null ==>
         exists j :: 0 <= j < |t.rows| && Cell(t.rows[j], "CountryName") == Cell(joined.rows[i], "CountryName")
                     && Cell(t.rows[j], TotalColumn) == Dec(GroupSum(joined.rows, GroupKey(joined.rows[i])))
  }

  lemma TotalsAreLookup(joined: Frame, totals: Frame)
    requires TotalQuantitiesPerCountryAndCurrency(joined) == Success(totals)
    requires OneCurrencyPerCountry(joined.rows)
    ensures CountryTotalsLookup(totals, joined)
  {
    forall a, b | 0 <= a < b < |totals.rows|
      ensures !Matches(Cell(totals.rows[a], "CountryName"), Cell(totals.rows[b], "CountryName"))
    {
      assert HasKey(totals.rows, GroupKey(totals.rows[a]));
      assert HasKey(totals.rows, GroupKey(totals.rows[b]));
      var p :| 0 <= p < |joined.rows| && GroupKey(joined.rows[p]) == GroupKey(totals.rows[a]);
      var q :| 0 <= q < |joined.rows| && GroupKey(joined.rows[q]) == GroupKey(totals.rows[b]);
      var ka, kb := GroupKey(totals.rows[a]), GroupKey(totals.rows[b]);
      assert ka != kb;
      assert ka.0 != kb.0 by {
        assert ka == GroupKey(joined.rows[p]) && kb == GroupKey(joined.rows[q]);
      }
    }
    forall i | 0 <= i < |joined.rows| && Cell(joined.rows[i], "CountryName") != Null
      ensures exists j :: 0 <= j < |totals.rows| && Cell(totals.rows[j], "CountryName") == Cell(joined.rows[i], "CountryName")
                          && Cell(totals.rows[j], TotalColumn) == Dec(GroupSum(joined.rows, GroupKey(joined.rows[i])))
    {
      assert HasKey(joined.rows, GroupKey(joined.rows[i]));
      var j :| 0 <= j < |totals.rows| && GroupKey(totals.rows[j]) == GroupKey(joined.rows[i]);
    }
  }

  /** Projecting the totals onto (CountryName, TotalSaleQuantityPerCountry) keeps them a lookup. */
  lemma SelectedTotalsAreLookup(joined: Frame, totals: Frame)
    requires CountryTotalsLookup(totals, joined)
    requires Select(totals, ["CountryName", TotalColumn]).Success?
    ensures CountryTotalsLookup(Select(totals, ["CountryName", TotalColumn]).value, joined)
  {
    var sel := Select(totals, ["CountryName", TotalColumn]).value;
    assert forall j :: 0 <= j < |totals.rows| ==>
      Cell(sel.rows[j], "CountryName") == Cell(totals.rows[j], "CountryName")
      && Cell(sel.rows[j], TotalColumn) == Cell(totals.rows[j], TotalColumn);
  }

  /** With unique keys the first match is the one matching row. */
  lemma {:induction false} MatchingUnique(rs: seq<Row>, v: Value, rk: string, j: int)
    requires KeyUnique(rs, rk) && 0 <= j < |rs| && Matches(v, Cell(rs[j], rk))
    ensures Matching(rs, v, rk) != [] && Matching(rs, v, rk)[0] == rs[j]
  {
    if j > 0 {
      assert !Matches(Cell(rs[0], rk), Cell(rs[j], rk));
      assert KeyUnique(rs[1..], rk) by {
        forall a, b | 0 <= a < b < |rs| - 1 ensures !Matches(Cell(rs[1..][a], rk), Cell(rs[1..][b], rk)) {
          assert rs[1..][a] == rs[a + 1] && rs[1..][b] == rs[b + 1];
        }
      }
      MatchingUnique(rs[1..], v, rk, j - 1);
    }
  }

  /**
   * Left-joining a country-totals lookup on CountryName keeps one row per row of
   * `cur` and brings in each row's country total (null when the row has no
   * country); every other cell of `cur` is kept.
   */
  lemma JoinedCountryTotal(cur: Frame, t: Frame, joined: Frame)
    requires LeftJoin(cur, t, "CountryName", "CountryName").Success?
    requires CountryTotalsLookup(t, joined)
    requires TotalColumn in t.columns
    requires |cur.rows| == |joined.rows|
    requires forall i :: 0 <= i < |cur.rows| ==> Cell(cur.rows[i], "CountryName") == Cell(joined.rows[i], "CountryName")
    ensures var out := LeftJoin(cur, t, "CountryName", "CountryName").value;
      var names := OutNames(cur.columns, Without(t.columns, "CountryName"));
      && |out.rows| == |cur.rows|
      && forall i :: 0 <= i < |cur.rows| ==>
           && (forall c :: c !in names ==> Cell(out.rows[i], c) == Cell(cur.rows[i], c))
           && Cell(out.rows[i], OutName(cur.columns, TotalColumn)) == CountryTotalOf(joined.rows, i)
  {
    var out := LeftJoin(cur, t, "CountryName", "CountryName").value;
    LeftJoinUnique(cur, t, "CountryName", "CountryName");
    var rcols := Without(t.columns, "CountryName");
    assert TotalColumn in rcols;
    var k :| 0 <= k < |rcols| && rcols[k] == TotalColumn;
    var names := OutNames(cur.columns, rcols);
    forall i | 0 <= i < |cur.rows| ensures Cell(out.rows[i], names[k]) == CountryTotalOf(joined.rows, i) {
      var v := Cell(cur.rows[i], "CountryName");
      if v == Null {
        MatchingNone(t.rows, v, "CountryName");
      } else {
        var j :| 0 <= j < |t.rows| && Cell(t.rows[j], "CountryName") == v
                 && Cell(t.rows[j], TotalColumn) == Dec(GroupSum(joined.rows, GroupKey(joined.rows[i])));
        MatchingUnique(t.rows, v, "CountryName", j);
      }
    }
  }

  /** The columns the two looped features add or overwrite. */
  const LoopedFeatureColumns: seq<string> := [
    TotalColumn, "CountryQuantityOverTotalQuantityPercentage", "QuantityOverTotalCountryQuantityPercentage",
    "CountryCurrency" + "_right", TotalColumn + "_right"]

  lemma WithoutHead(a: string, b: string)
    requires a != b
    ensures Without([a, b], a) == [b]
  {
    assert [a, b][1..] == [b];
    assert [b][1..] == [];
    assert Without([b], a) == [b] + Without([], a);
    assert Without([a, b], a) == [] + Without([b], a);
  }

  lemma WithoutTotalsKey()
    ensures Without(TotalsColumns, "CountryName") == ["CountryCurrency", TotalColumn]
  {
    assert TotalsColumns[1..] == ["CountryCurrency", TotalColumn];
    WithoutHead("CountryCurrency", TotalColumn);
    assert Without(["CountryCurrency", TotalColumn], "CountryName") == ["CountryCurrency"] + Without([TotalColumn], "CountryName");
    assert [TotalColumn][1..] == [];
  }

  lemma OutNamesBothClash(left: seq<string>, a: string, b: string)
    requires a in left && b in left
    ensures OutNames(left, [a, b]) == [a + "_right", b + "_right"]
  {
    var names := OutNames(left, [a, b]);
    assert names[0] == OutName(left, a) && names[1] == OutName(left, b);
  }

  /** The first looped feature: the country total and its share of the overall total. */
  lemma CountryShareFeature(joined: Frame, totals: Frame, round6: real -> real)
    requires TotalQuantitiesPerCountryAndCurrency(joined) == Success(totals)
    requires OneCurrencyPerCountry(joined.rows)
    requires TotalColumn !in joined.columns
    requires AddFeatureCountryQuantityOverTotalQuantityPercentage(joined, totals, round6).Success?
    ensures var out := AddFeatureCountryQuantityOverTotalQuantityPercentage(joined, totals, round6).value;
      && "CountryCurrency" in out.columns && TotalColumn in out.columns
      && |out.rows| == |joined.rows|
      && forall i :: 0 <= i < |joined.rows| ==>
           && Cell(out.rows[i], TotalColumn) == CountryTotalOf(joined.rows, i)
           && Cell(out.rows[i], "CountryQuantityOverTotalQuantityPercentage")
              == Ratio(CountryTotalOf(joined.rows, i), Dec(TotalQuantity(joined.rows)), round6)
           && forall c :: c != TotalColumn && c != "CountryQuantityOverTotalQuantityPercentage" ==>
                Cell(out.rows[i], c) == Cell(joined.rows[i], c)
  {
    TotalsAreLookup(joined, totals);
    SelectedTotalsAreLookup(joined, totals);
    var sel := Select(totals, ["CountryName", TotalColumn]).value;
    assert sel.columns == ["CountryName", TotalColumn];
    WithoutHead("CountryName", TotalColumn);
    assert OutNames(joined.columns, [TotalColumn]) == [TotalColumn];
    var withTotals := LeftJoin(joined, sel, "CountryName", "CountryName").value;
    JoinedCountryTotal(joined, sel, joined);
    assert withTotals.columns == joined.columns + [TotalColumn];
  }

  /** The join inside the second looped feature keeps each row's total and quantity. */
  lemma RowShareJoin(cur: Frame, joined: Frame, totals: Frame)
    requires CountryTotalsLookup(totals, joined) && totals.columns == TotalsColumns
    requires "CountryCurrency" in cur.columns && TotalColumn in cur.columns
    requires |cur.rows| == |joined.rows|
    requires forall i :: 0 <= i < |cur.rows| ==> Cell(cur.rows[i], "CountryName") == Cell(joined.rows[i], "CountryName")
    requires LeftJoin(cur, totals, "CountryName", "CountryName").Success?
    ensures var withTotals := LeftJoin(cur, totals, "CountryName", "CountryName").value;
      && |withTotals.rows| == |cur.rows|
      && forall i :: 0 <= i < |cur.rows| ==>
           forall c :: c != "CountryCurrency" + "_right" && c != TotalColumn + "_right" ==>
             Cell(withTotals.rows[i], c) == Cell(cur.rows[i], c)
  {
    WithoutTotalsKey();
    OutNamesBothClash(cur.columns, "CountryCurrency", TotalColumn);
    JoinedCountryTotal(cur, totals, joined);
  }

  /** The second looped feature: each row's share of its country total. */
  lemma RowShareFeature(cur: Frame, joined: Frame, totals: Frame, round6: real -> real)
    requires CountryTotalsLookup(totals, joined) && totals.columns == TotalsColumns
    requires "CountryCurrency" in cur.columns && TotalColumn in cur.columns
    requires |cur.rows| == |joined.rows|
    requires forall i :: 0 <= i < |cur.rows| ==> Cell(cur.rows[i], "CountryName") == Cell(joined.rows[i], "CountryName")
    requires AddFeatureQuantityOverTotalCountryQuantityPercentage(cur, totals, round6).Success?
    ensures var out := AddFeatureQuantityOverTotalCountryQuantityPercentage(cur, totals, round6).value;
      && |out.rows| == |cur.rows|
      && forall i :: 0 <= i < |cur.rows| ==>
           && Cell(out.rows[i], "QuantityOverTotalCountryQuantityPercentage")
              == Ratio(Cell(cur.rows[i], "SaleQuantity"), Cell(cur.rows[i], TotalColumn), round6)
           && forall c :: c != "QuantityOverTotalCountryQuantityPercentage" && c != "CountryCurrency" + "_right"
                          && c != TotalColumn + "_right" ==>
                Cell(out.rows[i], c) == Cell(cur.rows[i], c)
  {
    RowShareJoin(cur, joined, totals);
    var withTotals := LeftJoin(cur, totals, "CountryName", "CountryName").value;
    assert |TotalColumn + "_right"| != |TotalColumn|;
    assert |"SaleQuantity"| != |TotalColumn + "_right"| && |"SaleQuantity"| != |"CountryCurrency" + "_right"|;
    forall i | 0 <= i < |cur.rows|
      ensures Cell(withTotals.rows[i], TotalColumn) == Cell(cur.rows[i], TotalColumn)
      ensures Cell(withTotals.rows[i], "SaleQuantity") == Cell(cur.rows[i], "SaleQuantity")
    {
    }
  }

  /**
   * The two features of the loop, applied in order: every row keeps its place,
   * gains its country total, the country's share of the overall total and its
   * own share of the country total; no other cell changes.
   */
  lemma LoopedFeatures(joined: Frame, totals: Frame, round6: real -> real)
    requires TotalQuantitiesPerCountryAndCurrency(joined) == Success(totals)
    requires OneCurrencyPerCountry(joined.rows)
    requires TotalColumn !in joined.columns
    requires ApplyFeatures(FeatureFunctions(), joined, totals, round6).Success?
    ensures var out := ApplyFeatures(FeatureFunctions(), joined, totals, round6).value;
      && |out.rows| == |joined.rows|
      && forall i :: 0 <= i < |joined.rows| ==>
           && Cell(out.rows[i], TotalColumn) == CountryTotalOf(joined.rows, i)
           && Cell(out.rows[i], "CountryQuantityOverTotalQuantityPercentage")
              == Ratio(CountryTotalOf(joined.rows, i), Dec(TotalQuantity(joined.rows)), round6)
           && Cell(out.rows[i], "QuantityOverTotalCountryQuantityPercentage")
              == Ratio(Cell(joined.rows[i], "SaleQuantity"), CountryTotalOf(joined.rows, i), round6)
           && forall c :: c !in LoopedFeatureColumns ==> Cell(out.rows[i], c) == Cell(joined.rows[i], c)
  {
    var fs := FeatureFunctions();
    assert fs[..1] == [AddFeatureCountryQuantityOverTotalQuantityPercentage];
    assert fs[..1][..0] == [];
    var first := AddFeatureCountryQuantityOverTotalQuantityPercentage(joined, totals, round6);
    assert ApplyFeatures(fs[..1], joined, totals, round6) == first;
    CountryShareFeature(joined, totals, round6);
    TotalsAreLookup(joined, totals);
    var w1 := first.value;
    RowShareFeature(w1, joined, totals, round6);
    assert ApplyFeatures(fs, joined, totals, round6)
        == AddFeatureQuantityOverTotalCountryQuantityPercentage(w1, totals, round6);
    FeatureColumnNamesDiffer();
  }

  /** The column names the two looped features read and write are pairwise different. */
  lemma FeatureColumnNamesDiffer()
    ensures "CountryQuantityOverTotalQuantityPercentage" != "QuantityOverTotalCountryQuantityPercentage"
    ensures "SaleQuantity" != "CountryQuantityOverTotalQuantityPercentage"
    ensures TotalColumn != "QuantityOverTotalCountryQuantityPercentage"
    ensures TotalColumn != "CountryCurrency" + "_right" && TotalColumn != TotalColumn + "_right"
    ensures "CountryQuantityOverTotalQuantityPercentage" != "CountryCurrency" + "_right"
    ensures "CountryQuantityOverTotalQuantityPercentage" != TotalColumn + "_right"
  {
    assert "CountryQuantityOverTotalQuantityPercentage"[0] != "QuantityOverTotalCountryQuantityPercentage"[0];
    assert |"SaleQuantity"| != |"CountryQuantityOverTotalQuantityPercentage"|;
    assert |TotalColumn| != |"QuantityOverTotalCountryQuantityPercentage"|;
    assert |TotalColumn| != |"CountryCurrency" + "_right"| && |TotalColumn| != |TotalColumn + "_right"|;
    assert |"CountryQuantityOverTotalQuantityPercentage"| != |"CountryCurrency" + "_right"|;
    assert |"CountryQuantityOverTotalQuantityPercentage"| != |TotalColumn + "_right"|;
  }

  /** The ratio with no rounding: each share exactly as divided. */
  function Exact(x: real): real {
    x
  }

  /** The numeric values of column `c` over the rows of group `k`, summed (non-numbers count as 0). */
  function ColumnGroupSum(rows: seq<Row>, k: (Value, Value), c: string): real {
    if rows == [] then 0.0
    else
      var n := |rows| - 1;
      ColumnGroupSum(rows[..n], k, c) + (if GroupKey(rows[n]) == k then NumOrZero(Cell(rows[n], c)) else 0.0)
  }

  lemma {:induction false} ColumnGroupSumIsShares(outRows: seq<Row>, rows: seq<Row>, k: (Value, Value), c: string,
                                                  d: real, n: nat)
    requires d != 0.0 && |outRows| == |rows| && n <= |rows|
    requires forall i :: 0 <= i < |rows| ==> GroupKey(outRows[i]) == GroupKey(rows[i])
    requires forall i :: 0 <= i < |rows| && GroupKey(rows[i]) == k ==> NumOrZero(Cell(outRows[i], c)) == Quantity(rows[i]) / d
    ensures ColumnGroupSum(outRows[..n], k, c) == GroupShares(rows[..n], k, d)
  {
    if n > 0 {
      ColumnGroupSumIsShares(outRows, rows, k, c, d, n - 1);
      assert outRows[..n][..n - 1] == outRows[..n - 1];
      assert rows[..n][..n - 1] == rows[..n - 1];
    }
  }

  lemma GroupKeyUntouched()
    ensures "CountryName" !in LoopedFeatureColumns && "CountryCurrency" !in LoopedFeatureColumns
  {
    assert |"CountryName"| != |"CountryCurrency" + "_right"|;
  }

  /** A column holding SaleQuantity over the country total, unrounded, sums to 1 over a country. */
  lemma RowShareCellsSumToOne(outRows: seq<Row>, rows: seq<Row>, k: (Value, Value), c: string)
    requires |outRows| == |rows| && k.0 != Null && GroupSum(rows, k) != 0.0
    requires forall i :: 0 <= i < |rows| ==>
      && GroupKey(outRows[i]) == GroupKey(rows[i])
      && Cell(outRows[i], c) == Ratio(Cell(rows[i], "SaleQuantity"), CountryTotalOf(rows, i), Exact)
    ensures ColumnGroupSum(outRows, k, c) == 1.0
  {
    var d := GroupSum(rows, k);
    forall i | 0 <= i < |rows| && GroupKey(rows[i]) == k ensures NumOrZero(Cell(outRows[i], c)) == Quantity(rows[i]) / d {
      assert CountryTotalOf(rows, i) == Dec(d);
    }
    ColumnGroupSumIsShares(outRows, rows, k, c, d, |rows|);
    assert outRows[..|rows|] == outRows && rows[..|rows|] == rows;
    RowSharesSumToOne(rows, k);
  }

  /**
   * The QuantityOverTotalCountryQuantityPercentage column, unrounded, adds up
   * to 1 over the rows of any country whose total is not zero.
   */
  lemma RowShareColumnSumsToOne(joined: Frame, totals: Frame, k: (Value, Value))
    requires TotalQuantitiesPerCountryAndCurrency(joined) == Success(totals)
    requires OneCurrencyPerCountry(joined.rows)
    requires TotalColumn !in joined.columns
    requires ApplyFeatures(FeatureFunctions(), joined, totals, Exact).Success?
    requires k.0 != Null && GroupSum(joined.rows, k) != 0.0
    ensures ColumnGroupSum(ApplyFeatures(FeatureFunctions(), joined, totals, Exact).value.rows, k,
                           "QuantityOverTotalCountryQuantityPercentage") == 1.0
  {
    var out := ApplyFeatures(FeatureFunctions(), joined, totals, Exact).value;
    LoopedFeatures(joined, totals, Exact);
    GroupKeyUntouched();
    RowShareCellsSumToOne(out.rows, joined.rows, k, "QuantityOverTotalCountryQuantityPercentage");
  }

  /**
   * The main-countries feature: the one-row cross join adds the total of the
   * selected currencies to every row without changing the row count, and each
   * row's SaleQuantity is divided by it.
   */
  lemma MainCountriesFeature(cur: Frame, totals: Frame, currencies: seq<string>, round6: real -> real)
    requires "TotalSaleQuantity" !in cur.columns
    requires AddFeatureQuantityOverMainCountriesQuantityPercentage(cur, totals, currencies, round6).Success?
    ensures var out := AddFeatureQuantityOverMainCountriesQuantityPercentage(cur, totals, currencies, round6).value;
      var mainTotal := MainCountriesQuantity(totals.rows, currencies);
      && |out.rows| == |cur.rows|
      && forall i :: 0 <= i < |cur.rows| ==>
           && Cell(out.rows[i], "TotalSaleQuantity") == Dec(mainTotal)
           && Cell(out.rows[i], "QuantityOverMainCountriesQuantityPercentage")
              == Ratio(Cell(cur.rows[i], "SaleQuantity"), Dec(mainTotal), round6)
           && forall c :: c != "TotalSaleQuantity" && c != "QuantityOverMainCountriesQuantityPercentage" ==>
                Cell(out.rows[i], c) == Cell(cur.rows[i], c)
  {
    var mainTotal := MainCountriesQuantity(totals.rows, currencies);
    var one := Frame(["TotalSaleQuantity"], [map["TotalSaleQuantity" := Dec(mainTotal)]]);
    CrossJoinWithOneRow(cur, one);
    var names := OutNames(cur.columns, one.columns);
    assert names[0] == "TotalSaleQuantity";
    assert |"SaleQuantity"| != |"TotalSaleQuantity"|;
  }

  /** ProductWeightGramsPerSaleQuantity is ProductWeightGrams over SaleQuantity, row by row. */
  lemma ProductWeightFeature(cur: Frame, round6: real -> real)
    requires AddFeatureProductWeightGramsPerSaleQuantity(cur, round6).Success?
    ensures var out := AddFeatureProductWeightGramsPerSaleQuantity(cur, round6).value;
      && |out.rows| == |cur.rows|
      && forall i :: 0 <= i < |cur.rows| ==>
           && Cell(out.rows[i], "ProductWeightGramsPerSaleQuantity")
              == Ratio(Cell(cur.rows[i], "ProductWeightGrams"), Cell(cur.rows[i], "SaleQuantity"), round6)
           && forall c :: c != "ProductWeightGramsPerSaleQuantity" ==> Cell(out.rows[i], c) == Cell(cur.rows[i], c)
  {
  }

  // ---------------------------------------------------------------------------
  // The whole builder

  lemma CountryShareKeepsEveryRow(joined: Frame, totals: Frame, round6: real -> real)
    requires AddFeatureCountryQuantityOverTotalQuantityPercentage(joined, totals, round6).Success?
    ensures |AddFeatureCountryQuantityOverTotalQuantityPercentage(joined, totals, round6).value.rows| >= |joined.rows|
  {
    var sel := Select(totals, ["CountryName", TotalColumn]).value;
    LeftJoinKeepsEveryRow(joined, sel, "CountryName", "CountryName");
  }

  lemma RowShareKeepsEveryRow(cur: Frame, totals: Frame, round6: real -> real)
    requires AddFeatureQuantityOverTotalCountryQuantityPercentage(cur, totals, round6).Success?
    ensures |AddFeatureQuantityOverTotalCountryQuantityPercentage(cur, totals, round6).value.rows| >= |cur.rows|
  {
    LeftJoinKeepsEveryRow(cur, totals, "CountryName", "CountryName");
  }

  /** Whatever the keys, the looped features never drop a row. */
  lemma LoopedFeaturesKeepEveryRow(joined: Frame, totals: Frame, round6: real -> real)
    requires ApplyFeatures(FeatureFunctions(), joined, totals, round6).Success?
    ensures |ApplyFeatures(FeatureFunctions(), joined, totals, round6).value.rows| >= |joined.rows|
  {
    var fs := FeatureFunctions();
    assert fs[..1] == [AddFeatureCountryQuantityOverTotalQuantityPercentage];
    assert fs[..1][..0] == [];
    var first := AddFeatureCountryQuantityOverTotalQuantityPercentage(joined, totals, round6);
    assert ApplyFeatures(fs[..1], joined, totals, round6) == first;
    CountryShareKeepsEveryRow(joined, totals, round6);
    RowShareKeepsEveryRow(first.value, totals, round6);
    assert ApplyFeatures(fs, joined, totals, round6)
        == AddFeatureQuantityOverTotalCountryQuantityPercentage(first.value, totals, round6);
  }

  /**
   * The consumable table has exactly the requested columns, in order, and at
   * least one row per sale: no step of the builder drops a sale.
   */
  lemma ConsumableShape(curated: map<string, Frame>, consumableColumnsToSelect: seq<string>,
                        currenciesToSelect: seq<string>, round6: real -> real)
    requires DistinctColumns(curated)
    requires ConsumableFlatStructure(curated, consumableColumnsToSelect, currenciesToSelect, round6).Success?
    ensures var out := ConsumableFlatStructure(curated, consumableColumnsToSelect, currenciesToSelect, round6).value;
      && WellFormed(out)
      && out.columns == consumableColumnsToSelect
      && "sales" in curated
      && |out.rows| >= |curated["sales"].rows|
  {
    var renamed := PrefixRenamedTables(curated);
    PrefixRenamedCells("sales", curated["sales"]);
    var sales := SalesWithKeyRestored(renamed).value;
    var joined := JoinCuratedFlatStructures(renamed["sales" := sales]).value;
    JoinKeepsEverySale(renamed["sales" := sales]);
    var totals := TotalQuantitiesPerCountryAndCurrency(joined).value;
    var withShares := ApplyFeatures(FeatureFunctions(), joined, totals, round6).value;
    LoopedFeaturesKeepEveryRow(joined, totals, round6);
    var withMain := AddFeatureQuantityOverMainCountriesQuantityPercentage(withShares, totals, currenciesToSelect, round6).value;
    var mainTotal := MainCountriesQuantity(totals.rows, currenciesToSelect);
    CrossJoinWithOneRow(withShares, Frame(["TotalSaleQuantity"], [map["TotalSaleQuantity" := Dec(mainTotal)]]));
  }

  /** The looped features keep the row count when each country has one currency. */
  lemma LoopedFeaturesRowCount(joined: Frame, totals: Frame, round6: real -> real)
    requires TotalQuantitiesPerCountryAndCurrency(joined) == Success(totals)
    requires OneCurrencyPerCountry(joined.rows)
    requires ApplyFeatures(FeatureFunctions(), joined, totals, round6).Success?
    ensures |ApplyFeatures(FeatureFunctions(), joined, totals, round6).value.rows| == |joined.rows|
  {
    TotalsAreLookup(joined, totals);
    SelectedTotalsAreLookup(joined, totals);
    var fs := FeatureFunctions();
    assert fs[..1] == [AddFeatureCountryQuantityOverTotalQuantityPercentage];
    assert fs[..1][..0] == [];
    var first := AddFeatureCountryQuantityOverTotalQuantityPercentage(joined, totals, round6);
    assert ApplyFeatures(fs[..1], joined, totals, round6) == first;
    var sel := Select(totals, ["CountryName", TotalColumn]).value;
    LeftJoinUnique(joined, sel, "CountryName", "CountryName");
    LeftJoinUnique(first.value, totals, "CountryName", "CountryName");
    assert ApplyFeatures(fs, joined, totals, round6)
        == AddFeatureQuantityOverTotalCountryQuantityPercentage(first.value, totals, round6);
  }

  /** A key that is unique in a curated table stays unique under its prefixed name. */
  lemma KeyUniqueRenamed(name: string, f: Frame, c: string)
    requires Distinct(f.columns) && KeyUnique(f.rows, c)
    ensures KeyUnique(PrefixRenamedFrame(name, f).rows, ColumnPrefix(name) + c)
  {
    var g := PrefixRenamedFrame(name, f);
    var prefix := ColumnPrefix(name);
    PrefixRenamedCells(name, f);
    if k :| 0 <= k < |f.columns| && f.columns[k] == c {
      assert forall i :: 0 <= i < |f.rows| ==> Cell(g.rows[i], prefix + c) == Cell(f.rows[i], c);
    } else {
      forall i | 0 <= i < |g.rows| ensures Cell(g.rows[i], prefix + c) == Null {
        if prefix + c in g.rows[i] {
          assert prefix + c in ToSet(g.columns);
          var k :| 0 <= k < |g.columns| && g.columns[k] == prefix + c;
          PrefixInjective(prefix, f.columns[k], c);
        }
      }
    }
  }

  /** On the table the builder joins, each country has a single currency. */
  predicate OneCurrencyPerJoinedCountry(curated: map<string, Frame>)
    requires DistinctColumns(curated)
  {
    match JoinCuratedFlatStructures(TablesAfterRenaming(curated))
    case Success(joined) => OneCurrencyPerCountry(joined.rows)
    case Failure(_) => true
  }

  /** The prefixed names of the four join keys. */
  lemma EntityKeyNames()
    ensures ColumnPrefix("products") + "ProductId" == "ProductProductId"
    ensures ColumnPrefix("orders") + "OrderId" == "OrderOrderId"
    ensures ColumnPrefix("customers") + "CustomerId" == "CustomerCustomerId"
    ensures ColumnPrefix("countries") + "Country" == "CountryCountry"
  {
    EntityPrefixes();
  }

  /** A unique key of a curated table stays unique, prefixed, in a dictionary holding its renamed table. */
  lemma RenamedKeyUnique(curated: map<string, Frame>, cfs: map<string, Frame>, name: string, key: string)
    requires DistinctColumns(curated) && name in curated && KeyUnique(curated[name].rows, key)
    requires name in cfs && cfs[name] == PrefixRenamedFrame(name, curated[name])
    ensures KeyUnique(cfs[name].rows, ColumnPrefix(name) + key)
  {
    KeyUniqueRenamed(name, curated[name], key);
  }

  /**
   * One consumable row per sale: when products, orders, customers and countries
   * each have a unique key and each country has one currency, no join fans out.
   */
  lemma ConsumableRowCount(curated: map<string, Frame>, consumableColumnsToSelect: seq<string>,
                           currenciesToSelect: seq<string>, round6: real -> real)
    requires DistinctColumns(curated)
    requires "products" in curated && KeyUnique(curated["products"].rows, "ProductId")
    requires "orders" in curated && KeyUnique(curated["orders"].rows, "OrderId")
    requires "customers" in curated && KeyUnique(curated["customers"].rows, "CustomerId")
    requires "countries" in curated && KeyUnique(curated["countries"].rows, "Country")
    requires OneCurrencyPerJoinedCountry(curated)
    requires ConsumableFlatStructure(curated, consumableColumnsToSelect, currenciesToSelect, round6).Success?
    ensures "sales" in curated
    ensures |ConsumableFlatStructure(curated, consumableColumnsToSelect, currenciesToSelect, round6).value.rows|
         == |curated["sales"].rows|
  {
    var renamed := PrefixRenamedTables(curated);
    var sales := SalesWithKeyRestored(renamed).value;
    assert TablesAfterRenaming(curated) == renamed["sales" := sales];
    PrefixRenamedCells("sales", curated["sales"]);
    var cfs := renamed["sales" := sales];
    var joined := JoinCuratedFlatStructures(cfs).value;
    EntityKeyNames();
    RenamedKeyUnique(curated, cfs, "products", "ProductId");
    RenamedKeyUnique(curated, cfs, "orders", "OrderId");
    RenamedKeyUnique(curated, cfs, "customers", "CustomerId");
    RenamedKeyUnique(curated, cfs, "countries", "Country");
    JoinedRowCount(cfs);
    var totals := TotalQuantitiesPerCountryAndCurrency(joined).value;
    LoopedFeaturesRowCount(joined, totals, round6);
    var withShares := ApplyFeatures(FeatureFunctions(), joined, totals, round6).value;
    var mainTotal := MainCountriesQuantity(totals.rows, currenciesToSelect);
    CrossJoinWithOneRow(withShares, Frame(["TotalSaleQuantity"], [map["TotalSaleQuantity" := Dec(mainTotal)]]));
  }
}
