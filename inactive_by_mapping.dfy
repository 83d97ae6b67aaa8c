/** The inactive-product report of app007.py: standardise the sku, date and BD column
    names, optionally keep only the customers and products of two matching tables,
    take each pair's latest purchase and report those older than the threshold. */
module InactiveByMapping {
  import opened Common
  import opened Columns
  import opened Purchases

  /** COLUMN_MAPPING: only the order-date entry is required. */
  const Aliases: seq<Alias> := [
    Alias("sku_id", ["sku_id", "sku"], false),
    Alias("order_date", ["订单日期", "下单时间", "时间"], true),
    Alias("BD", ["BD", "bd_name"], false)
  ]

  const LastDateColumn: string := "最后购买日期"

  /** The uploaded order table: its column names and its rows read through them. */
  datatype Table = Table(columns: seq<string>, rows: seq<Purchase>)

  /** A matching table: its column names and the values of its key column. */
  datatype MatchTable = MatchTable(columns: seq<string>, names: seq<string>)

  datatype Outcome =
    | NoOriginal                 // no order table was uploaded
    | MissingDateColumn          // none of the order-date aliases is present
    | BadCustomerTable           // the customer table lacks 客户名称
    | BadProductTable            // the product table lacks 商品名称
    | Failed                     // a column the analysis reads is absent (KeyError)
    | AllActive                  // every pair was bought after the threshold
    | Report(columns: seq<string>, rows: seq<Purchase>)

  lemma AliasesSeparate()
    ensures Separate(Aliases)
  {
    forall i, j, x | 0 <= i < j < |Aliases| && x in AllNames(Aliases[i]) ensures x !in AllNames(Aliases[j]) {
      assert AllNames(Aliases[0]) == ["sku_id", "sku_id", "sku"];
      assert AllNames(Aliases[1]) == ["order_date", "订单日期", "下单时间", "时间"];
      assert AllNames(Aliases[2]) == ["BD", "BD", "bd_name"];
    }
  }

  /** The run stops for want of a date column exactly when no date alias is present. */
  lemma DateColumnRequired(columns: seq<string>)
    ensures Resolve(columns, Aliases).Unresolved? <==> forall n :: n in ["订单日期", "下单时间", "时间"] ==> n !in columns
  {
    AliasesSeparate();
    ResolveFails(columns, Aliases);
    assert Aliases[1].names == ["订单日期", "下单时间", "时间"];
    if Resolve(columns, Aliases).Unresolved? {
      var k :| 0 <= k < |Aliases| && Aliases[k].required && FirstPresent(Aliases[k].names, columns).None?;
      assert k == 1;
    }
  }

  /** After standardisation BD is a column exactly when BD or bd_name was. */
  lemma BdColumn(columns: seq<string>)
    requires Resolve(columns, Aliases).Resolved?
    ensures "BD" in Resolve(columns, Aliases).columns <==> "BD" in columns || "bd_name" in columns
  {
    AliasesSeparate();
    ResolveStandards(columns, Aliases, 2);
    assert Aliases[2].names == ["BD", "bd_name"];
  }

  /** Standardisation leaves m_id alone. */
  lemma MIdColumn(columns: seq<string>)
    ensures "m_id" in Resolve(columns, Aliases).columns <==> "m_id" in columns
  {
    AliasesSeparate();
    forall k | 0 <= k < |Aliases| ensures "m_id" !in AllNames(Aliases[k]) {
      assert AllNames(Aliases[0]) == ["sku_id", "sku_id", "sku"];
      assert AllNames(Aliases[1]) == ["order_date", "订单日期", "下单时间", "时间"];
      assert AllNames(Aliases[2]) == ["BD", "BD", "bd_name"];
    }
    ResolveKeeps(columns, Aliases, "m_id");
  }

  /** Standardisation leaves 客户名称 and 商品名称 alone. */
  lemma KeyColumns(columns: seq<string>)
    ensures "客户名称" in Resolve(columns, Aliases).columns <==> "客户名称" in columns
    ensures "商品名称" in Resolve(columns, Aliases).columns <==> "商品名称" in columns
  {
    AliasesSeparate();
    forall k | 0 <= k < |Aliases| ensures "客户名称" !in AllNames(Aliases[k]) && "商品名称" !in AllNames(Aliases[k]) {
      assert AllNames(Aliases[0]) == ["sku_id", "sku_id", "sku"];
      assert AllNames(Aliases[1]) == ["order_date", "订单日期", "下单时间", "时间"];
      assert AllNames(Aliases[2]) == ["BD", "BD", "bd_name"];
    }
    ResolveKeeps(columns, Aliases, "客户名称");
    ResolveKeeps(columns, Aliases, "商品名称");
  }

  /** After standardisation sku_id is a column exactly when sku_id or sku was. */
  lemma SkuColumn(columns: seq<string>)
    requires Resolve(columns, Aliases).Resolved?
    ensures "sku_id" in Resolve(columns, Aliases).columns <==> "sku_id" in columns || "sku" in columns
  {
    AliasesSeparate();
    ResolveStandards(columns, Aliases, 0);
    assert Aliases[0].names == ["sku_id", "sku"];
  }

  /** Renaming order_date to 最后购买日期 keeps every other result column. */
  lemma LastDateRename(columns: seq<string>)
    requires "order_date" in columns && LastDateColumn !in columns
    ensures LastDateColumn in Renamed(columns, "order_date", LastDateColumn)
    ensures "order_date" !in Renamed(columns, "order_date", LastDateColumn)
    ensures forall x :: x != "order_date" && x != LastDateColumn ==>
      (x in Renamed(columns, "order_date", LastDateColumn) <==> x in columns)
  {
    forall x ensures x in Renamed(columns, "order_date", LastDateColumn) <==>
      (x == LastDateColumn || (x != "order_date" && x != LastDateColumn && x in columns))
    {
      RenameEffect(columns, "order_date", LastDateColumn, x);
    }
  }

  /** A matching table, when one is given, has its key column. */
  predicate KeyedBy(t: Option<MatchTable>, key: string)
  {
    t.None? || key in t.value.columns
  }

  predicate HasDateAlias(columns: seq<string>)
  {
    "订单日期" in columns || "下单时间" in columns || "时间" in columns
  }

  /** Every check before the inactive rows passes: an order table with a date alias,
      matching tables with their key columns, and 客户名称 and 商品名称 to filter and
      de-duplicate on. */
  predicate Passes(original: Option<Table>, customers: Option<MatchTable>, products: Option<MatchTable>)
  {
    original.Some? && HasDateAlias(original.value.columns)
    && KeyedBy(customers, "客户名称") && KeyedBy(products, "商品名称")
    && "客户名称" in original.value.columns && "商品名称" in original.value.columns
  }

  predicate HasSku(columns: seq<string>)
  {
    "sku_id" in columns || "sku" in columns
  }

  /** The rows the matching tables let through. */
  function Selected(rows: seq<Purchase>, customers: Option<MatchTable>, products: Option<MatchTable>): seq<Purchase>
  {
    var byCustomer := if customers.Some? then Filter(rows, CustomerIn(customers.value.names)) else rows;
    if products.Some? then Filter(byCustomer, ProductIn(products.value.names)) else byCustomer
  }

  /** result_columns: 客户名称, 商品名称, sku_id, [BD], order_date, [m_id]. */
  method ResultColumns(hasBd: bool, hasMId: bool) returns (columns: seq<string>)
    ensures |columns| == 4 + (if hasBd then 1 else 0) + (if hasMId then 1 else 0)
    ensures columns[..3] == ["客户名称", "商品名称", "sku_id"]
    ensures columns[if hasBd then 4 else 3] == "order_date"
    ensures hasBd ==> columns[3] == "BD"
    ensures hasMId ==> columns[|columns| - 1] == "m_id"
    ensures ("BD" in columns <==> hasBd) && ("m_id" in columns <==> hasMId)
    ensures forall c :: c in columns ==> c in ["客户名称", "商品名称", "sku_id", "BD", "order_date", "m_id"]
  {
    columns := ["客户名称", "商品名称", "sku_id", "order_date"];
    if hasBd {
      columns := columns[..3] + ["BD"] + columns[3..];
    }
    if hasMId {
      columns := columns + ["m_id"];
    }
  }

  /** The analysis button. `threshold` is the day after the day of now − threshold_days:
      an order date, the midnight that starts its day, is before that instant exactly
      when its day number is below `threshold`. */
  method Run(original: Option<Table>, customers: Option<MatchTable>, products: Option<MatchTable>, threshold: int)
    returns (r: Outcome)
    ensures r.NoOriginal? <==> original.None?
    ensures r.MissingDateColumn? <==>
      (original.Some? && forall n :: n in ["订单日期", "下单时间", "时间"] ==> n !in original.value.columns)
    ensures r.BadCustomerTable? <==>
      original.Some? && HasDateAlias(original.value.columns) && !KeyedBy(customers, "客户名称")
    ensures r.BadProductTable? <==>
      original.Some? && HasDateAlias(original.value.columns) && KeyedBy(customers, "客户名称")
      && (customers.Some? ==> "客户名称" in original.value.columns) && !KeyedBy(products, "商品名称")
    ensures r.Failed? <==>
      original.Some? && HasDateAlias(original.value.columns) && KeyedBy(customers, "客户名称")
      && ((customers.Some? && "客户名称" !in original.value.columns)
          || (KeyedBy(products, "商品名称")
              && ("客户名称" !in original.value.columns || "商品名称" !in original.value.columns))
          || (Passes(original, customers, products) && !HasSku(original.value.columns)
              && Inactive(Selected(original.value.rows, customers, products), threshold) != []))
    ensures r.AllActive? <==>
      Passes(original, customers, products) && Inactive(Selected(original.value.rows, customers, products), threshold) == []
    ensures r.Report? <==>
      Passes(original, customers, products) && HasSku(original.value.columns)
      && Inactive(Selected(original.value.rows, customers, products), threshold) != []
    ensures r.Report? ==> r.rows == Inactive(Selected(original.value.rows, customers, products), threshold)
    ensures r.Report? ==> r.rows != [] && LastDateColumn in r.columns && "order_date" !in r.columns
    ensures r.Report? ==> ("BD" in r.columns <==> "BD" in original.value.columns || "bd_name" in original.value.columns)
    ensures r.Report? ==> ("m_id" in r.columns <==> "m_id" in original.value.columns)
  {
    if original.None? {
      return NoOriginal;
    }
    var table := original.value;
    var df := new Frame(table.columns);
    DateColumnRequired(table.columns);
    var res := df.ResolveAliases(Aliases);
    if res.Unresolved? {
      return MissingDateColumn;
    }
    KeyColumns(table.columns);
    SkuColumn(table.columns);
    var rows := table.rows;
    if customers.Some? {
      if "客户名称" !in customers.value.columns {
        return BadCustomerTable;
      }
      if !df.Has("客户名称") {
        return Failed;
      }
      rows := Filter(rows, CustomerIn(customers.value.names));
    }
    if products.Some? {
      if "商品名称" !in products.value.columns {
        return BadProductTable;
      }
      if !df.Has("商品名称") {
        return Failed;
      }
      rows := Filter(rows, ProductIn(products.value.names));
    }
    if !df.Has("客户名称") || !df.Has("商品名称") {
      return Failed;
    }
    BdColumn(table.columns);
    MIdColumn(table.columns);
    r := Conclude(df, Inactive(rows, threshold));
  }

  /** From the inactive rows on: the balloons, the sku_id lookup, the result columns. */
  method Conclude(df: Frame, inactive: seq<Purchase>) returns (r: Outcome)
    ensures r.AllActive? <==> inactive == []
    ensures r.Failed? <==> inactive != [] && !df.Has("sku_id")
    ensures r.Report? <==> inactive != [] && df.Has("sku_id")
    ensures r.Report? ==> r.rows == inactive
    ensures r.Report? ==> LastDateColumn in r.columns && "order_date" !in r.columns
    ensures r.Report? ==> ("BD" in r.columns <==> df.Has("BD")) && ("m_id" in r.columns <==> df.Has("m_id"))
  {
    if inactive == [] {
      return AllActive;
    }
    if !df.Has("sku_id") {
      return Failed;
    }
    var columns := ResultColumns(df.Has("BD"), df.Has("m_id"));
    assert columns[if df.Has("BD") then 4 else 3] in columns;
    assert LastDateColumn !in columns;
    LastDateRename(columns);
    return Report(Renamed(columns, "order_date", LastDateColumn), inactive);
  }
}
