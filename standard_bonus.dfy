/** The standard-product incentive of app008.py: sales rows are joined with a
    bonus table on product name and numeric SKU, the rows of the bonus period are
    labelled 存量 when the same customer bought the same product in the 90 days
    before the period and 增量 otherwise, priced with the matching commission, and
    summed per BD with a column-sum 总计 row. */
module StandardBonus {
  import opened Common

  const LookbackDays: int := 90
  const TotalLabel: string := "总计"

  /** A row of the sales table. `date` is None when the order date does not parse
      and `sku` is None when sku_id is not numeric. */
  datatype Order = Order(date: Option<int>, desc: string, name: string, sku: Option<int>,
                         customer: string, bd: string, qty: real)

  /** A row of the standard-product bonus table (标品奖金表). */
  datatype SkuRule = SkuRule(name: string, sku: Option<int>, stockComm: real, incComm: real)

  /** A row of the merge of the two tables. */
  datatype Joined = Joined(order: Order, rule: SkuRule)

  datatype Kind = Stock | Incremental

  /** A bonus-period row with its label and its (unrounded) bonus. */
  datatype PeriodRow = PeriodRow(row: Joined, kind: Kind, bonus: real)

  /** A row of the summary: 总奖金, 存量奖金 and 增量奖金 of one BD (or of all, for 总计). */
  datatype BdRow = BdRow(bd: string, total: real, stock: real, incremental: real)

  /** A read upload: its header and its rows. */
  datatype Table<T> = Table(columns: seq<string>, rows: seq<T>)

  datatype Outcome =
    | MissingFile       // 请先上传两个数据文件
    | Failed            // the page's exception handler: 处理错误
    | Report(summary: seq<BdRow>, totalRow: BdRow, detail: seq<PeriodRow>)

  /** Columns the merge keeps under their own name only when one table alone has them
      (a name in both gets the _x/_y suffixes). */
  const MergedColumns: seq<string> :=
    ["sku_id", "订单日期", "客户名称", "销量", "bd_name", "商品描述", "存量佣金", "增量佣金"]

  /** Every column the page reads: sku_id and SKU for the numeric conversions, 商品名称
      in both tables for the merge, and the merged columns read by the period filter,
      check_history, the bonus, the groupby and the detail table. */
  predicate ColumnsFound(orderColumns: seq<string>, ruleColumns: seq<string>)
  {
    && "sku_id" in orderColumns && "SKU" in ruleColumns
    && "商品名称" in orderColumns && "商品名称" in ruleColumns
    && forall c :: c in MergedColumns ==> (c in orderColumns <==> c !in ruleColumns)
  }

  // ---------------------------------------------------------------------------
  // Join and period
  // ---------------------------------------------------------------------------

  /** The merge keys: equal product names and equal numeric SKUs (pandas' merge pairs
      two missing SKUs with each other, as Option equality does). */
  predicate Matches(o: Order, r: SkuRule)
  {
    o.name == r.name && o.sku == r.sku
  }

  function MatchesOf(o: Order): SkuRule -> bool
  {
    (r: SkuRule) => Matches(o, r)
  }

  function JoinWith(o: Order): SkuRule -> Joined
  {
    (r: SkuRule) => Joined(o, r)
  }

  /** The inner merge, in the order of the sales rows. */
  function Join(orders: seq<Order>, rules: seq<SkuRule>): seq<Joined>
  {
    if orders == [] then []
    else MapSeq(Filter(rules, MatchesOf(orders[0])), JoinWith(orders[0])) + Join(orders[1..], rules)
  }

  predicate InPeriod(j: Joined, start: int, end: int)
  {
    j.order.date.Some? && start <= j.order.date.value <= end
  }

  function PeriodMask(start: int, end: int): Joined -> bool
  {
    (j: Joined) => InPeriod(j, start, end)
  }

  /** A merged row of the same customer and product name dated in [start − 90, start). */
  predicate EarlierPurchase(j: Joined, row: Joined, start: int)
  {
    j.order.customer == row.order.customer && j.order.name == row.order.name
    && j.order.date.Some? && start - LookbackDays <= j.order.date.value < start
  }

  function EarlierPurchaseOf(row: Joined, start: int): Joined -> bool
  {
    (j: Joined) => EarlierPurchase(j, row, start)
  }

  /** check_history: 存量 when any merged row is an earlier purchase of the same product. */
  function CheckHistory(joined: seq<Joined>, row: Joined, start: int): Kind
  {
    if Filter(joined, EarlierPurchaseOf(row, start)) != [] then Stock else Incremental
  }

  /** 奖金: quantity times the commission of the row's label, not rounded. */
  function Bonus(row: Joined, kind: Kind): real
  {
    if kind == Stock then row.order.qty * row.rule.stockComm else row.order.qty * row.rule.incComm
  }

  function LabelRow(joined: seq<Joined>, start: int, row: Joined): PeriodRow
  {
    PeriodRow(row, CheckHistory(joined, row, start), Bonus(row, CheckHistory(joined, row, start)))
  }

  function Label(joined: seq<Joined>, start: int): Joined -> PeriodRow
  {
    (row: Joined) => LabelRow(joined, start, row)
  }

  /** period_orders with 类型 and 奖金. */
  function PeriodOrders(joined: seq<Joined>, start: int, end: int): seq<PeriodRow>
  {
    MapSeq(Filter(joined, PeriodMask(start, end)), Label(joined, start))
  }

  // ---------------------------------------------------------------------------
  // Summary
  // ---------------------------------------------------------------------------

  function BdOf(p: PeriodRow): string { p.row.order.bd }

  function BonusOf(p: PeriodRow): real { p.bonus }

  function StockBonus(p: PeriodRow): real { if p.kind == Stock then p.bonus else 0.0 }

  function IncrementalBonus(p: PeriodRow): real { if p.kind == Incremental then p.bonus else 0.0 }

  function BdSummary(rows: seq<PeriodRow>): string -> BdRow
  {
    (b: string) => BdRow(b, SumWithKey(rows, BdOf, b, BonusOf), SumWithKey(rows, BdOf, b, StockBonus),
                         SumWithKey(rows, BdOf, b, IncrementalBonus))
  }

  /** The groupby on bd_name, one row per BD in order of first appearance. */
  function Summary(rows: seq<PeriodRow>): seq<BdRow>
  {
    MapSeq(Distinct(MapSeq(rows, BdOf)), BdSummary(rows))
  }

  function TotalCol(r: BdRow): real { r.total }
  function StockCol(r: BdRow): real { r.stock }
  function IncrementalCol(r: BdRow): real { r.incremental }

  /** The appended 总计 row: the numeric column sums of the summary. */
  function TotalRow(summary: seq<BdRow>): BdRow
  {
    BdRow(TotalLabel, SumOf(summary, TotalCol), SumOf(summary, StockCol), SumOf(summary, IncrementalCol))
  }

  /** 涉及BD人数: the summary's row count without the total row. */
  function BdCount(summary: seq<BdRow>, totalRow: BdRow): int
  {
    |summary + [totalRow]| - 1
  }

  /** The analysis button: both files are needed, then merge, period, labels, summary.
      A column the page reads that the merge does not provide raises KeyError, which the
      handler turns into Failed. An empty period gives an empty report: the row-wise
      applies probe their functions with a row of NaN, which do not raise, so they
      return empty columns. */
  function Analyze(orders: Option<Table<Order>>, rules: Option<Table<SkuRule>>, start: int, end: int): (r: Outcome)
    ensures r.MissingFile? <==> orders.None? || rules.None?
    ensures r.Failed? <==> orders.Some? && rules.Some? && !ColumnsFound(orders.value.columns, rules.value.columns)
    ensures r.Report? ==>
      && r.detail == PeriodOrders(Join(orders.value.rows, rules.value.rows), start, end)
      && r.summary == Summary(r.detail)
      && r.totalRow == TotalRow(r.summary)
  {
    if orders.None? || rules.None? then MissingFile
    else if !ColumnsFound(orders.value.columns, rules.value.columns) then Failed
    else
      var joined := Join(orders.value.rows, rules.value.rows);
      var rows := PeriodOrders(joined, start, end);
      var summary := Summary(rows);
      Report(summary, TotalRow(summary), rows)
  }

  // ---------------------------------------------------------------------------
  // Properties
  // ---------------------------------------------------------------------------

  /** A merged row is exactly a sales row and a bonus row with equal name and SKU. */
  lemma {:induction false} JoinMember(orders: seq<Order>, rules: seq<SkuRule>, j: Joined)
    ensures j in Join(orders, rules) <==> j.order in orders && j.rule in rules && Matches(j.order, j.rule)
  {
    if orders != [] {
      var o := orders[0];
      JoinMember(orders[1..], rules, j);
      var picked := Filter(rules, MatchesOf(o));
      var head := MapSeq(picked, JoinWith(o));
      assert j in head <==> j.order == o && j.rule in rules && Matches(o, j.rule) by {
        FilterMember(rules, MatchesOf(o), j.rule);
        if j in head {
          var k :| 0 <= k < |head| && head[k] == j;
          assert picked[k] in picked;
          FilterMember(rules, MatchesOf(o), picked[k]);
        }
        if j.order == o && j.rule in rules && Matches(o, j.rule) {
          var k :| 0 <= k < |picked| && picked[k] == j.rule;
          assert head[k] == j;
        }
      }
      assert orders == [o] + orders[1..];
    }
  }

  /** With every column found and no merged row in the period, the page shows an
      empty report whose 总计 row is zero, not the error message. */
  lemma EmptyPeriodReport(orders: Table<Order>, rules: Table<SkuRule>, start: int, end: int)
    requires ColumnsFound(orders.columns, rules.columns)
    requires forall j :: j in Join(orders.rows, rules.rows) ==> !InPeriod(j, start, end)
    ensures Analyze(Some(orders), Some(rules), start, end) == Report([], BdRow(TotalLabel, 0.0, 0.0, 0.0), [])
  {
    var joined := Join(orders.rows, rules.rows);
    if PeriodOrders(joined, start, end) != [] {
      PeriodRowFacts(joined, start, end, 0);
    }
    DistinctSpec(MapSeq([], BdOf));
    assert Summary([]) == [];
  }

  /** check_history: a row is 存量 exactly when some merged row of the same customer
      and product is dated in [start − 90, start). */
  lemma CheckHistoryIff(joined: seq<Joined>, row: Joined, start: int)
    ensures CheckHistory(joined, row, start) == Stock <==> exists j :: j in joined && EarlierPurchase(j, row, start)
  {
    var history := Filter(joined, EarlierPurchaseOf(row, start));
    if history != [] {
      assert history[0] in history;
      FilterMember(joined, EarlierPurchaseOf(row, start), history[0]);
    }
    if exists j :: j in joined && EarlierPurchase(j, row, start) {
      var j :| j in joined && EarlierPurchase(j, row, start);
      FilterMember(joined, EarlierPurchaseOf(row, start), j);
    }
  }

  /** period_orders holds merged rows dated in [start, end]; each is labelled by
      check_history and its bonus is the quantity times that label's commission. */
  lemma PeriodRowFacts(joined: seq<Joined>, start: int, end: int, i: nat)
    requires i < |PeriodOrders(joined, start, end)|
    ensures var p := PeriodOrders(joined, start, end)[i];
      && p.row in joined && p.row.order.date.Some? && start <= p.row.order.date.value <= end
      && (p.kind == Stock <==> exists j :: j in joined && EarlierPurchase(j, p.row, start))
      && p.bonus == p.row.order.qty * (if p.kind == Stock then p.row.rule.stockComm else p.row.rule.incComm)
  {
    var inPeriod := Filter(joined, PeriodMask(start, end));
    var row := inPeriod[i];
    FilterMember(joined, PeriodMask(start, end), row);
    var p := PeriodOrders(joined, start, end)[i];
    assert p == LabelRow(joined, start, row);
    CheckHistoryIff(joined, row, start);
    assert p.bonus == Bonus(row, p.kind);
  }

  /** Every merged row dated in the period appears in period_orders. */
  lemma PeriodComplete(joined: seq<Joined>, start: int, end: int, j: Joined)
    requires j in joined && InPeriod(j, start, end)
    ensures exists i :: 0 <= i < |PeriodOrders(joined, start, end)| && PeriodOrders(joined, start, end)[i].row == j
  {
    var inPeriod := Filter(joined, PeriodMask(start, end));
    FilterMember(joined, PeriodMask(start, end), j);
    var i :| 0 <= i < |inPeriod| && inPeriod[i] == j;
    assert PeriodOrders(joined, start, end)[i].row == j;
  }

  /** Per BD, 总奖金 = 存量奖金 + 增量奖金: every period row carries one of the two labels. */
  lemma BdTotalSplits(rows: seq<PeriodRow>, k: nat)
    requires k < |Summary(rows)|
    ensures Summary(rows)[k].total == Summary(rows)[k].stock + Summary(rows)[k].incremental
  {
    var b := Distinct(MapSeq(rows, BdOf))[k];
    SumWithKeyAdd(rows, BdOf, b, StockBonus, IncrementalBonus, BonusOf);
  }

  /** The 总计 row holds the column sums, which are the sums over all period rows, and
      its 总奖金 is its 存量奖金 plus its 增量奖金; the BD count is the number of
      distinct BDs among the period rows. */
  lemma TotalRowFacts(rows: seq<PeriodRow>)
    ensures var t := TotalRow(Summary(rows));
      && t.bd == TotalLabel
      && t.total == SumOf(rows, BonusOf)
      && t.stock == SumOf(rows, StockBonus)
      && t.incremental == SumOf(rows, IncrementalBonus)
      && t.total == t.stock + t.incremental
    ensures BdCount(Summary(rows), TotalRow(Summary(rows))) == |Distinct(MapSeq(rows, BdOf))|
  {
    var bdCol := MapSeq(rows, BdOf);
    var bds := Distinct(bdCol);
    DistinctSpec(bdCol);
    forall p | p in rows ensures BdOf(p) in bds {
      var i :| 0 <= i < |rows| && rows[i] == p;
      assert bdCol[i] == BdOf(p);
    }
    SummaryColumns(rows, bds);
    SumPartition(rows, BdOf, bds, BonusOf);
    SumPartition(rows, BdOf, bds, StockBonus);
    SumPartition(rows, BdOf, bds, IncrementalBonus);
    SumOfAdd(rows, StockBonus, IncrementalBonus, BonusOf);
  }

  lemma {:induction false} SummaryColumns(rows: seq<PeriodRow>, bds: seq<string>)
    ensures SumOf(MapSeq(bds, BdSummary(rows)), TotalCol) == SumOverKeys(rows, BdOf, bds, BonusOf)
    ensures SumOf(MapSeq(bds, BdSummary(rows)), StockCol) == SumOverKeys(rows, BdOf, bds, StockBonus)
    ensures SumOf(MapSeq(bds, BdSummary(rows)), IncrementalCol) == SumOverKeys(rows, BdOf, bds, IncrementalBonus)
  {
    if bds != [] {
      assert MapSeq(bds, BdSummary(rows))[1..] == MapSeq(bds[1..], BdSummary(rows));
      SummaryColumns(rows, bds[1..]);
    }
  }

  /** Every BD of the period rows has a summary row. */
  lemma SummaryCoversBds(rows: seq<PeriodRow>, p: PeriodRow)
    requires p in rows
    ensures exists k :: 0 <= k < |Summary(rows)| && Summary(rows)[k].bd == BdOf(p)
  {
    var bdCol := MapSeq(rows, BdOf);
    var bds := Distinct(bdCol);
    DistinctSpec(bdCol);
    var i :| 0 <= i < |rows| && rows[i] == p;
    assert bdCol[i] in bdCol;
    var k :| 0 <= k < |bds| && bds[k] == bdCol[i];
    assert Summary(rows)[k].bd == bds[k];
  }

  /** Every summary row is the BD of some period row, and no BD has two rows. */
  lemma SummaryBdsSound(rows: seq<PeriodRow>, k: nat)
    requires k < |Summary(rows)|
    ensures exists p :: p in rows && BdOf(p) == Summary(rows)[k].bd
    ensures forall l :: k < l < |Summary(rows)| ==> Summary(rows)[k].bd != Summary(rows)[l].bd
  {
    var bdCol := MapSeq(rows, BdOf);
    var bds := Distinct(bdCol);
    DistinctSpec(bdCol);
    assert Summary(rows)[k].bd == bds[k];
    assert bds[k] in bds;
    var i :| 0 <= i < |bdCol| && bdCol[i] == bds[k];
    assert rows[i] in rows;
    forall l | k < l < |Summary(rows)| ensures Summary(rows)[k].bd != Summary(rows)[l].bd {
      assert Summary(rows)[l].bd == bds[l];
    }
  }
}
