/** The inactive-product report of app002.py: the sku and order-date columns must be
    found under one of their aliases, BD may be, and then all of 客户名称, 商品名称,
    sku_id, BD and order_date must be present; an optional matching table restricts the
    customers; each pair's latest purchase older than the threshold is reported. */
module InactiveByCustomer {
  import opened Common
  import opened Columns
  import opened Purchases

  /** The three renames: sku and order date are required, BD only warns. */
  const Aliases: seq<Alias> := [
    Alias("sku_id", ["sku_id", "sku"], true),
    Alias("order_date", ["订单日期", "下单时间"], true),
    Alias("BD", ["BD", "bd_name"], false)
  ]

  /** Every name the alias table mentions. */
  const AliasNames: seq<string> := ["sku_id", "sku", "order_date", "订单日期", "下单时间", "BD", "bd_name"]

  const RequiredColumns: seq<string> := ["客户名称", "商品名称", "sku_id", "BD", "order_date"]
  const LastDateColumn: string := "最后一次购买日期"

  datatype Table = Table(columns: seq<string>, rows: seq<Purchase>)

  /** The customer matching table: its column names and its 客户名称 values. */
  datatype MatchTable = MatchTable(columns: seq<string>, names: seq<string>)

  datatype Outcome =
    | NoOriginal
    | MissingSkuColumn
    | MissingDateColumn
    | MissingRequired(missing: seq<string>)
    | BadMatchingTable
    | AllActive
    | Report(columns: seq<string>, rows: seq<Purchase>)

  lemma AliasesSeparate()
    ensures Separate(Aliases)
  {
    forall i, j, x | 0 <= i < j < |Aliases| && x in AllNames(Aliases[i]) ensures x !in AllNames(Aliases[j]) {
      assert AllNames(Aliases[0]) == ["sku_id", "sku_id", "sku"];
      assert AllNames(Aliases[1]) == ["order_date", "订单日期", "下单时间"];
      assert AllNames(Aliases[2]) == ["BD", "BD", "bd_name"];
    }
  }

  predicate HasSku(columns: seq<string>) { "sku_id" in columns || "sku" in columns }
  predicate HasDate(columns: seq<string>) { "订单日期" in columns || "下单时间" in columns }
  predicate HasBd(columns: seq<string>) { "BD" in columns || "bd_name" in columns }

  /** The sku and date entries find an alias exactly when the table has one. */
  lemma AliasLookups(columns: seq<string>)
    ensures FirstPresent(Aliases[0].names, columns).None? <==> !HasSku(columns)
    ensures FirstPresent(Aliases[1].names, columns).None? <==> !HasDate(columns)
  {
    assert Aliases[0].names == ["sku_id", "sku"];
    assert Aliases[1].names == ["订单日期", "下单时间"];
  }

  lemma ResolveNoSku(columns: seq<string>)
    requires !HasSku(columns)
    ensures Resolve(columns, Aliases) == Unresolved("sku_id", columns)
  {
    AliasLookups(columns);
  }

  lemma ResolveNoDate(columns: seq<string>)
    requires HasSku(columns) && !HasDate(columns)
    ensures Resolve(columns, Aliases).Unresolved? && Resolve(columns, Aliases).standard == "order_date"
  {
    AliasLookups(columns);
    var a0, a1, a2 := Aliases[0], Aliases[1], Aliases[2];
    var c1 := Standardise(columns, a0);
    StandardiseEffect(columns, a0);
    assert AllNames(a0) == ["sku_id", "sku_id", "sku"];
    assert HasDate(c1) <==> HasDate(columns);
    AliasLookups(c1);
    assert Aliases[1..] == [a1, a2];
    assert Resolve(columns, Aliases) == Unresolved("order_date", c1);
  }

  lemma ResolveBoth(columns: seq<string>)
    requires HasSku(columns) && HasDate(columns)
    ensures Resolve(columns, Aliases).Resolved?
  {
    AliasLookups(columns);
    var a0, a1, a2 := Aliases[0], Aliases[1], Aliases[2];
    var c1 := Standardise(columns, a0);
    StandardiseEffect(columns, a0);
    assert AllNames(a0) == ["sku_id", "sku_id", "sku"];
    assert HasDate(c1) <==> HasDate(columns);
    AliasLookups(c1);
    assert Aliases[1..] == [a1, a2];
    var c2 := Standardise(c1, a1);
    assert Aliases[1..][1..] == [a2];
    assert Resolve(columns, Aliases) == Resolve(c2, [a2]);
    assert Resolve(c2, [a2]) == Resolve(Standardise(c2, a2), []);
  }

  /** The renames stop at sku when it has no alias, else at the order date when it has none. */
  lemma ResolveOutcome(columns: seq<string>)
    ensures Resolve(columns, Aliases).Unresolved? <==> !HasSku(columns) || !HasDate(columns)
    ensures Resolve(columns, Aliases).Unresolved? ==>
      (Resolve(columns, Aliases).standard == "sku_id" <==> !HasSku(columns))
  {
    if !HasSku(columns) {
      ResolveNoSku(columns);
    } else if !HasDate(columns) {
      ResolveNoDate(columns);
    } else {
      ResolveBoth(columns);
    }
  }

  /** After successful renames sku_id and order_date are columns, and BD is one exactly
      when BD or bd_name was. */
  lemma StandardColumns(columns: seq<string>)
    requires Resolve(columns, Aliases).Resolved?
    ensures "sku_id" in Resolve(columns, Aliases).columns && "order_date" in Resolve(columns, Aliases).columns
    ensures "BD" in Resolve(columns, Aliases).columns <==> HasBd(columns)
  {
    AliasesSeparate();
    ResolveOutcome(columns);
    assert FirstPresent(Aliases[0].names, columns).Some? by { assert Aliases[0].names == ["sku_id", "sku"]; }
    assert FirstPresent(Aliases[1].names, columns).Some? by { assert Aliases[1].names == ["订单日期", "下单时间"]; }
    ResolveStandards(columns, Aliases, 0);
    ResolveStandards(columns, Aliases, 1);
    ResolveStandards(columns, Aliases, 2);
    assert Aliases[2].names == ["BD", "bd_name"];
  }

  /** The renames leave a column that no alias table entry names as it was. */
  lemma UnnamedColumn(columns: seq<string>, x: string)
    requires x !in AliasNames
    ensures x in Resolve(columns, Aliases).columns <==> x in columns
  {
    AliasesSeparate();
    forall k | 0 <= k < |Aliases| ensures x !in AllNames(Aliases[k]) {
      assert AllNames(Aliases[0]) == ["sku_id", "sku_id", "sku"];
      assert AllNames(Aliases[1]) == ["order_date", "订单日期", "下单时间"];
      assert AllNames(Aliases[2]) == ["BD", "BD", "bd_name"];
    }
    ResolveKeeps(columns, Aliases, x);
  }

  lemma HasRequiredIff(columns: seq<string>)
    ensures HasColumns(RequiredColumns, columns) <==>
      "客户名称" in columns && "商品名称" in columns && "sku_id" in columns && "BD" in columns && "order_date" in columns
  {
  }

  lemma UnnamedColumns()
    ensures "客户名称" !in AliasNames && "商品名称" !in AliasNames && "m_id" !in AliasNames
  {
  }

  /** After successful renames no required column is missing exactly when BD (or
      bd_name), 客户名称 and 商品名称 were present. */
  lemma RequiredAfterResolve(columns: seq<string>)
    requires Resolve(columns, Aliases).Resolved?
    ensures HasColumns(RequiredColumns, Resolve(columns, Aliases).columns) <==>
      HasBd(columns) && "客户名称" in columns && "商品名称" in columns
  {
    UnnamedColumns();
    StandardColumns(columns);
    UnnamedColumn(columns, "客户名称");
    UnnamedColumn(columns, "商品名称");
    HasRequiredIff(Resolve(columns, Aliases).columns);
  }

  /** Standardisation leaves m_id alone. */
  lemma MIdColumn(columns: seq<string>)
    ensures "m_id" in Resolve(columns, Aliases).columns <==> "m_id" in columns
  {
    UnnamedColumns();
    UnnamedColumn(columns, "m_id");
  }

  /** The renames succeed and every required column is then present. */
  predicate Complete(columns: seq<string>)
  {
    HasSku(columns) && HasDate(columns) && HasBd(columns) && "客户名称" in columns && "商品名称" in columns
  }

  /** The rows the matching table lets through. */
  function Selected(rows: seq<Purchase>, matching: Option<MatchTable>): seq<Purchase>
  {
    if matching.Some? then Filter(rows, CustomerIn(matching.value.names)) else rows
  }

  /** The analysis button. `threshold` is the day after the day of now − threshold_days:
      an order date, the midnight that starts its day, is before that instant exactly
      when its day number is below `threshold`. */
  method Run(original: Option<Table>, matching: Option<MatchTable>, threshold: int) returns (r: Outcome)
    ensures r.NoOriginal? <==> original.None?
    ensures r.MissingSkuColumn? <==> original.Some? && !HasSku(original.value.columns)
    ensures r.MissingDateColumn? <==> original.Some? && HasSku(original.value.columns) && !HasDate(original.value.columns)
    ensures !(r.NoOriginal? || r.MissingSkuColumn? || r.MissingDateColumn? || r.MissingRequired?) <==>
      original.Some? && Complete(original.value.columns)
    ensures r.MissingRequired? ==> r.missing != [] && forall c :: c in r.missing ==> c in RequiredColumns
    ensures r.MissingRequired? ==>
      forall c :: c in r.missing <==> c in RequiredColumns && c !in Resolve(original.value.columns, Aliases).columns
    ensures r.BadMatchingTable? <==>
      original.Some? && Complete(original.value.columns) && matching.Some? && "客户名称" !in matching.value.columns
    ensures r.AllActive? <==>
      original.Some? && Complete(original.value.columns) && (matching.Some? ==> "客户名称" in matching.value.columns)
      && Inactive(Selected(original.value.rows, matching), threshold) == []
    ensures r.Report? <==>
      original.Some? && Complete(original.value.columns) && (matching.Some? ==> "客户名称" in matching.value.columns)
      && Inactive(Selected(original.value.rows, matching), threshold) != []
    ensures r.Report? ==> r.rows == Inactive(Selected(original.value.rows, matching), threshold)
    ensures r.Report? ==> |r.columns| == (if "m_id" in original.value.columns then 6 else 5)
    ensures r.Report? ==> r.columns[..4] == ["客户名称", "商品名称", "sku_id", "BD"] && r.columns[4] == LastDateColumn
  {
    if original.None? {
      return NoOriginal;
    }
    var table := original.value;
    var df := new Frame(table.columns);
    ResolveOutcome(table.columns);
    var res := df.ResolveAliases(Aliases);
    if res.Unresolved? {
      if res.standard == "sku_id" {
        return MissingSkuColumn;
      }
      return MissingDateColumn;
    }
    RequiredAfterResolve(table.columns);
    MIdColumn(table.columns);
    var missing := MissingColumns(RequiredColumns, df.columns);
    if missing != [] {
      return MissingRequired(missing);
    }
    var hasMId := df.Has("m_id");
    var rows := table.rows;
    if matching.Some? {
      if "客户名称" !in matching.value.columns {
        return BadMatchingTable;
      }
      rows := Filter(rows, CustomerIn(matching.value.names));
    }
    r := Conclude(hasMId, Inactive(rows, threshold));
  }

  /** From the inactive rows on: the result columns, with order_date renamed. */
  method Conclude(hasMId: bool, inactive: seq<Purchase>) returns (r: Outcome)
    ensures r.AllActive? <==> inactive == []
    ensures r.Report? <==> inactive != []
    ensures r.Report? ==> r.rows == inactive
    ensures r.Report? ==> |r.columns| == (if hasMId then 6 else 5)
    ensures r.Report? ==> r.columns[..4] == ["客户名称", "商品名称", "sku_id", "BD"] && r.columns[4] == LastDateColumn
    ensures r.Report? && hasMId ==> r.columns[5] == "m_id"
  {
    if inactive == [] {
      return AllActive;
    }
    var resultColumns := ["客户名称", "商品名称", "sku_id", "BD", "order_date"];
    if hasMId {
      resultColumns := resultColumns + ["m_id"];
    }
    var out := new Frame(resultColumns);
    out.Rename("order_date", LastDateColumn);
    return Report(out.columns, inactive);
  }
}
