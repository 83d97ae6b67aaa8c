/** app003.py: month-over-month (环比) analysis of order amounts. Orders are split into
    regular products and two special creams; for each analysis dimension the paid amount is
    totalled per group and month, and the latest month is compared with the one before. */
module MonthOverMonth {
  import opened Common

  /** The columns an analysis can group by. */
  datatype Dim = BD | Customer | MainType | Category | OrderType | Product

  /** An order row: its dimension cells, its order month (下单时间 as a month index, so the
      month before m is m - 1) and its paid amount (实付金额). */
  datatype Row = Row(product: string, customer: string, bd: string, mainType: string,
                     category: string, orderType: string, month: int, paid: real)

  datatype Table = Table(columns: seq<string>, rows: seq<Row>)

  const DateColumn: string := "下单时间"
  const BDColumn: string := "BD"
  const ProductColumn: string := "商品名称"
  const PaidColumn: string := "实付金额"

  /** The products analysed on their own (SPECIAL_ITEMS). */
  const SpecialItems: seq<string> := ["安佳淡奶油", "爱乐薇(铁塔)淡奶油"]

  function ColumnOf(d: Dim): string
  {
    match d
    case BD => "BD"
    case Customer => "客户名称"
    case MainType => "主营类型"
    case Category => "商品分类"
    case OrderType => "订单类型"
    case Product => "商品名称"
  }

  function CellOf(r: Row, d: Dim): string
  {
    match d
    case BD => r.bd
    case Customer => r.customer
    case MainType => r.mainType
    case Category => r.category
    case OrderType => r.orderType
    case Product => r.product
  }

  // ---------------------------------------------------------------------------
  // The partition
  // ---------------------------------------------------------------------------

  predicate IsSpecial(r: Row)
  {
    r.product in SpecialItems
  }

  predicate IsRegular(r: Row)
  {
    r.product !in SpecialItems
  }

  /** main_df: the rows of regular products. */
  function Regular(rows: seq<Row>): seq<Row>
  {
    Filter(rows, IsRegular)
  }

  /** special_df: the rows of the special creams. */
  function Special(rows: seq<Row>): seq<Row>
  {
    Filter(rows, IsSpecial)
  }

  /** main_df and special_df split the rows: each row is in exactly one of them, and no
      row is lost or repeated. */
  lemma {:induction false} PartitionIff(rows: seq<Row>)
    ensures forall x :: x in Regular(rows) <==> x in rows && x.product !in SpecialItems
    ensures forall x :: x in Special(rows) <==> x in rows && x.product in SpecialItems
    ensures |Regular(rows)| + |Special(rows)| == |rows|
  {
    forall x ensures x in Regular(rows) <==> x in rows && x.product !in SpecialItems {
      FilterMember(rows, IsRegular, x);
    }
    forall x ensures x in Special(rows) <==> x in rows && x.product in SpecialItems {
      FilterMember(rows, IsSpecial, x);
    }
    PartitionCount(rows);
  }

  lemma {:induction false} PartitionCount(rows: seq<Row>)
    ensures |Regular(rows)| + |Special(rows)| == |rows|
  {
    if rows != [] {
      PartitionCount(rows[1..]);
    }
  }

  // ---------------------------------------------------------------------------
  // Months
  // ---------------------------------------------------------------------------

  /** The months that occur (the month columns after unstacking). */
  function Months(rows: seq<Row>): set<int>
  {
    set i | 0 <= i < |rows| :: rows[i].month
  }

  /** latest_month: the largest order month, None (NaT) without rows. */
  function LatestMonth(rows: seq<Row>): (r: Option<int>)
    ensures r.None? <==> rows == []
    ensures r.Some? ==> r.value in Months(rows) && forall m :: m in Months(rows) ==> m <= r.value
  {
    if rows == [] then None
    else
      var rest := LatestMonth(rows[1..]);
      assert forall i :: 1 <= i < |rows| ==> rows[i] == rows[1..][i - 1];
      assert Months(rows) == {rows[0].month} + Months(rows[1..]) by {
        forall m | m in Months(rows) ensures m in {rows[0].month} + Months(rows[1..]) {
          var i :| 0 <= i < |rows| && rows[i].month == m;
          if i > 0 { assert rows[1..][i - 1].month == m; }
        }
      }
      if rest.None? || rows[0].month >= rest.value then Some(rows[0].month) else rest
  }

  // ---------------------------------------------------------------------------
  // The 环比 formula
  // ---------------------------------------------------------------------------

  /** (latest - previous) / previous.replace(0, 1) * 100, NaN when either month has no
      amount for the group. */
  function Growth(latest: Option<real>, previous: Option<real>): Option<real>
  {
    if latest.None? || previous.None? then None
    else
      var d := if previous.value == 0.0 then 1.0 else previous.value;
      Some((latest.value - previous.value) / d * 100.0)
  }

  lemma GrowthOfValues(l: real, p: real, g: real)
    requires g == (l - p) / (if p == 0.0 then 1.0 else p) * 100.0
    ensures p != 0.0 ==> g * p == (l - p) * 100.0
    ensures p == 0.0 ==> g == l * 100.0
    ensures p > 0.0 ==> (g > 0.0 <==> l > p) && (g == 0.0 <==> l == p) && (g < 0.0 <==> l < p)
  {
    if p != 0.0 {
      assert (l - p) / p * p == l - p;
    }
    if p > 0.0 {
      var q := (l - p) / p;
      assert q * p == l - p;
      assert q > 0.0 <==> l - p > 0.0;
      assert q < 0.0 <==> l - p < 0.0;
    }
  }

  /** 环比 is the change as a percentage of the previous amount, a previous amount of 0
      counting as 1; it is NaN exactly when a month is missing, and for a positive previous
      amount its sign is the sign of the change. */
  lemma GrowthSpec(latest: Option<real>, previous: Option<real>)
    ensures Growth(latest, previous).None? <==> latest.None? || previous.None?
    ensures latest.Some? && previous.Some? && previous.value != 0.0 ==>
      Growth(latest, previous).value * previous.value == (latest.value - previous.value) * 100.0
    ensures latest.Some? && previous.Some? && previous.value == 0.0 ==>
      Growth(latest, previous).value == latest.value * 100.0
    ensures latest.Some? && previous.Some? && previous.value > 0.0 ==>
      (Growth(latest, previous).value > 0.0 <==> latest.value > previous.value)
      && (Growth(latest, previous).value == 0.0 <==> latest.value == previous.value)
  {
    if latest.Some? && previous.Some? {
      GrowthOfValues(latest.value, previous.value, Growth(latest, previous).value);
    }
  }

  // ---------------------------------------------------------------------------
  // One analysis: groupby([dims..., 月份])['实付金额'].sum().unstack() and 环比
  // ---------------------------------------------------------------------------

  /** A row's group: its cells in the grouping columns. */
  function Key(r: Row, dims: seq<Dim>): (k: seq<string>)
    ensures |k| == |dims| && forall i :: 0 <= i < |dims| ==> k[i] == CellOf(r, dims[i])
  {
    seq(|dims|, i requires 0 <= i < |dims| => CellOf(r, dims[i]))
  }

  function KeyOf(dims: seq<Dim>): Row -> seq<string>
  {
    r => Key(r, dims)
  }

  /** The groups, once each, in order of first appearance. */
  function Groups(rows: seq<Row>, dims: seq<Dim>): seq<seq<string>>
  {
    Distinct(MapSeq(rows, KeyOf(dims)))
  }

  predicate InCell(r: Row, dims: seq<Dim>, key: seq<string>, month: int)
  {
    Key(r, dims) == key && r.month == month
  }

  /** The paid amount of a group in a month, None (NaN after unstacking) when the group
      has no order that month. */
  function MonthTotal(rows: seq<Row>, dims: seq<Dim>, key: seq<string>, month: int): (r: Option<real>)
    ensures r.Some? <==> exists i :: 0 <= i < |rows| && InCell(rows[i], dims, key, month)
  {
    if rows == [] then None
    else
      var rest := MonthTotal(rows[1..], dims, key, month);
      assert forall i :: 1 <= i < |rows| ==> rows[i] == rows[1..][i - 1];
      assert (exists i :: 1 <= i < |rows| && InCell(rows[i], dims, key, month)) ==> rest.Some? by {
        if exists i :: 1 <= i < |rows| && InCell(rows[i], dims, key, month) {
          var i :| 1 <= i < |rows| && InCell(rows[i], dims, key, month);
          assert InCell(rows[1..][i - 1], dims, key, month);
        }
      }
      if InCell(rows[0], dims, key, month) then
        Some(rows[0].paid + (if rest.Some? then rest.value else 0.0))
      else rest
  }

  /** A row of the unstacked table: the group, its amount per month it has orders in, and
      its 环比. */
  datatype GrowthRow = GrowthRow(key: seq<string>, monthly: map<int, real>, growth: Option<real>)

  function Monthly(rows: seq<Row>, dims: seq<Dim>, key: seq<string>): map<int, real>
  {
    map m | m in Months(rows) && MonthTotal(rows, dims, key, m).Some? :: MonthTotal(rows, dims, key, m).value
  }

  function Lookup(m: map<int, real>, k: int): Option<real>
  {
    if k in m then Some(m[k]) else None
  }

  /** How one analysis ends: a KeyError when a grouping column or 实付金额 is not in the
      file; skipped with fewer than two month columns; a KeyError when the latest month or
      the month before it is not a column of the table; else the table. */
  datatype Analysis = ColumnMissing | Skipped | MonthMissing | Computed(rows: seq<GrowthRow>)

  /** An analysis that ends the run with a KeyError. */
  predicate Raises(a: Analysis)
  {
    a.ColumnMissing? || a.MonthMissing?
  }

  /** A group's amount in a month, read from its unstacked row, is the month total. */
  lemma LookupMonthly(rows: seq<Row>, dims: seq<Dim>, key: seq<string>, m: int)
    ensures Lookup(Monthly(rows, dims, key), m) == MonthTotal(rows, dims, key, m)
  {
    if MonthTotal(rows, dims, key, m).Some? {
      var i :| 0 <= i < |rows| && InCell(rows[i], dims, key, m);
      assert m in Months(rows);
    }
  }

  /** The unstacked table with its 环比 column, one row per group. */
  function GrowthTable(rows: seq<Row>, dims: seq<Dim>, groups: seq<seq<string>>, latest: int): (t: seq<GrowthRow>)
    ensures |t| == |groups|
    ensures forall j :: 0 <= j < |t| ==> t[j].key == groups[j]
  {
    seq(|groups|, i requires 0 <= i < |groups| =>
      var monthly := Monthly(rows, dims, groups[i]);
      GrowthRow(groups[i], monthly, Growth(Lookup(monthly, latest), Lookup(monthly, latest - 1))))
  }

  function Analyse(rows: seq<Row>, dims: seq<Dim>, latest: Option<int>): Analysis
  {
    var months := Months(rows);
    if |months| < 2 then Skipped
    else if latest.None? || latest.value !in months || latest.value - 1 !in months then MonthMissing
    else Computed(GrowthTable(rows, dims, Groups(rows, dims), latest.value))
  }

  /** The groupby reads the grouping columns and 实付金额 from the file. */
  predicate Readable(columns: seq<string>, dims: seq<Dim>)
  {
    PaidColumn in columns && forall d :: d in dims ==> ColumnOf(d) in columns
  }

  /** One analysis as the page runs it: the groupby raises before anything is computed
      when a column it reads is missing. */
  function Attempt(columns: seq<string>, rows: seq<Row>, dims: seq<Dim>, latest: Option<int>): (a: Analysis)
    ensures a.ColumnMissing? <==> !Readable(columns, dims)
    ensures Readable(columns, dims) ==> a == Analyse(rows, dims, latest)
  {
    if Readable(columns, dims) then Analyse(rows, dims, latest) else ColumnMissing
  }

  /** An analysis is skipped with fewer than two months, and yields a table exactly when
      its rows also include the latest month and the month before it. */
  lemma AnalyseOutcome(rows: seq<Row>, dims: seq<Dim>, latest: Option<int>)
    ensures Analyse(rows, dims, latest).Skipped? <==> |Months(rows)| < 2
    ensures Analyse(rows, dims, latest).Computed? <==>
      |Months(rows)| >= 2 && latest.Some? && latest.value in Months(rows) && latest.value - 1 in Months(rows)
  {
  }

  /** Some row belongs to group `k`. */
  predicate Present(rows: seq<Row>, dims: seq<Dim>, k: seq<string>)
  {
    exists i :: 0 <= i < |rows| && Key(rows[i], dims) == k
  }

  /** The table has a row for group `k`. */
  predicate HasRow(t: seq<GrowthRow>, k: seq<string>)
  {
    exists j :: 0 <= j < |t| && t[j].key == k
  }

  /** The groups are the keys of the rows, each once. */
  lemma GroupsSpec(rows: seq<Row>, dims: seq<Dim>)
    ensures forall k :: k in Groups(rows, dims) ==> Present(rows, dims, k)
    ensures forall i :: 0 <= i < |rows| ==> Key(rows[i], dims) in Groups(rows, dims)
    ensures NoDups(Groups(rows, dims))
  {
    var keys := MapSeq(rows, KeyOf(dims));
    DistinctSpec(keys);
    forall k | k in Groups(rows, dims) ensures Present(rows, dims, k) {
      var i :| 0 <= i < |keys| && keys[i] == k;
      assert Key(rows[i], dims) == k;
    }
    forall i | 0 <= i < |rows| ensures Key(rows[i], dims) in Groups(rows, dims) {
      assert keys[i] in keys;
    }
  }

  /** Each row's 环比 compares the group's paid totals in the latest month and in the
      month before it. */
  lemma AnalyseGrowth(rows: seq<Row>, dims: seq<Dim>, latest: Option<int>)
    requires Analyse(rows, dims, latest).Computed?
    ensures latest.Some?
    ensures var t := Analyse(rows, dims, latest).rows;
      forall j :: 0 <= j < |t| ==>
        t[j].growth == Growth(MonthTotal(rows, dims, t[j].key, latest.value), MonthTotal(rows, dims, t[j].key, latest.value - 1))
  {
    AnalyseTable(rows, dims, latest);
    var t := Analyse(rows, dims, latest).rows;
    forall j | 0 <= j < |t|
      ensures t[j].growth ==
        Growth(MonthTotal(rows, dims, t[j].key, latest.value), MonthTotal(rows, dims, t[j].key, latest.value - 1))
    {
      LookupMonthly(rows, dims, t[j].key, latest.value);
      LookupMonthly(rows, dims, t[j].key, latest.value - 1);
    }
  }

  /** A computed analysis is the 环比 table of all the groups. */
  lemma AnalyseTable(rows: seq<Row>, dims: seq<Dim>, latest: Option<int>)
    requires Analyse(rows, dims, latest).Computed?
    ensures latest.Some?
    ensures Analyse(rows, dims, latest).rows == GrowthTable(rows, dims, Groups(rows, dims), latest.value)
  {
  }

  /** Every row of the table is a group present in the rows, every group present has a
      row, and no group has two. */
  predicate OnePerGroup(rows: seq<Row>, dims: seq<Dim>, t: seq<GrowthRow>)
  {
    (forall j :: 0 <= j < |t| ==> Present(rows, dims, t[j].key))
    && (forall i :: 0 <= i < |rows| ==> HasRow(t, Key(rows[i], dims)))
    && (forall i, j :: 0 <= i < j < |t| ==> t[i].key != t[j].key)
  }

  /** A table keyed by the groups has one row per group present in the rows, each group once. */
  lemma TableKeys(rows: seq<Row>, dims: seq<Dim>, groups: seq<seq<string>>, t: seq<GrowthRow>)
    requires forall k :: k in groups ==> Present(rows, dims, k)
    requires forall i :: 0 <= i < |rows| ==> Key(rows[i], dims) in groups
    requires NoDups(groups)
    requires |t| == |groups|
    requires forall j :: 0 <= j < |t| ==> t[j].key == groups[j]
    ensures OnePerGroup(rows, dims, t)
  {
    forall j | 0 <= j < |t| ensures Present(rows, dims, t[j].key) {
      assert groups[j] in groups;
    }
    forall i | 0 <= i < |rows| ensures HasRow(t, Key(rows[i], dims)) {
      var j :| 0 <= j < |groups| && groups[j] == Key(rows[i], dims);
      assert t[j].key == Key(rows[i], dims);
    }
    forall i, j | 0 <= i < j < |t| ensures t[i].key != t[j].key {
      assert groups[i] != groups[j];
    }
  }

  /** A computed analysis has one row per group present in the rows, each group once. */
  lemma AnalyseGroups(rows: seq<Row>, dims: seq<Dim>, latest: Option<int>)
    requires Analyse(rows, dims, latest).Computed?
    ensures OnePerGroup(rows, dims, Analyse(rows, dims, latest).rows)
  {
    AnalyseTable(rows, dims, latest);
    GroupsSpec(rows, dims);
    TableKeys(rows, dims, Groups(rows, dims), Analyse(rows, dims, latest).rows);
  }

  // ---------------------------------------------------------------------------
  // The report
  // ---------------------------------------------------------------------------

  /** One analysis of the report: its title, whether it runs on special_df, its groups. */
  datatype Spec = Spec(title: string, special: bool, dims: seq<Dim>)

  /** The analyses that run, in the order they are added to `results`: BD and customer+BD
      when there is a BD column; each other dimension whose column exists; the special
      products, and their customer+BD when there is a BD column, when special rows exist. */
  function Plan(columns: seq<string>, hasSpecial: bool): seq<Spec>
  {
    (if BDColumn in columns then [Spec("BD维度分析", false, [BD]), Spec("客户维度分析", false, [Customer, BD])] else [])
    + DimPlan(columns, [MainType, Category, OrderType])
    + (if hasSpecial then
         [Spec("特殊商品分析", true, [Product])]
         + (if BDColumn in columns then [Spec("特殊商品客户分析", true, [Customer, BD])] else [])
       else [])
  }

  /** The loop over 主营类型, 商品分类 and 订单类型. */
  function DimPlan(columns: seq<string>, dims: seq<Dim>): seq<Spec>
  {
    if dims == [] then []
    else
      (if ColumnOf(dims[0]) in columns then [Spec(ColumnOf(dims[0]) + "分析", false, [dims[0]])] else [])
      + DimPlan(columns, dims[1..])
  }

  /** A sheet of the exported workbook. */
  datatype Sheet = Sheet(title: string, rows: seq<GrowthRow>)

  /** An analysis with its title, once run. */
  datatype Step = Step(title: string, outcome: Analysis)

  /** Each analysis of the plan run on main_df or special_df. */
  function Steps(plan: seq<Spec>, columns: seq<string>, regular: seq<Row>, special: seq<Row>, latest: Option<int>): (r: seq<Step>)
    ensures |r| == |plan|
    ensures forall i :: 0 <= i < |plan| ==>
      r[i] == Step(plan[i].title, Attempt(columns, if plan[i].special then special else regular, plan[i].dims, latest))
  {
    seq(|plan|, i requires 0 <= i < |plan| =>
      Step(plan[i].title, Attempt(columns, if plan[i].special then special else regular, plan[i].dims, latest)))
  }

  /** Filling `results` step by step: the sheets of the analyses that produced a table,
      and false when one of them raised, which ends the run. */
  function Collect(steps: seq<Step>): (seq<Sheet>, bool)
  {
    if steps == [] then ([], true)
    else
      match steps[0].outcome
      case ColumnMissing => ([], false)
      case MonthMissing => ([], false)
      case Skipped => Collect(steps[1..])
      case Computed(t) =>
        var rest := Collect(steps[1..]);
        ([Sheet(steps[0].title, t)] + rest.0, rest.1)
  }

  /** Collecting a run in two parts: the second part counts only if the first did not
      raise. */
  lemma {:induction false} CollectAppend(a: seq<Step>, b: seq<Step>)
    ensures Collect(a + b) ==
      (if Collect(a).1 then (Collect(a).0 + Collect(b).0, Collect(b).1) else Collect(a))
  {
    if a == [] {
      assert a + b == b;
      assert [] + Collect(b).0 == Collect(b).0;
    } else {
      assert (a + b)[0] == a[0] && (a + b)[1..] == a[1..] + b;
      CollectAppend(a[1..], b);
      if a[0].outcome.Computed? && Collect(a[1..]).1 {
        var head := [Sheet(a[0].title, a[0].outcome.rows)];
        assert head + (Collect(a[1..]).0 + Collect(b).0) == (head + Collect(a[1..]).0) + Collect(b).0;
      }
    }
  }

  predicate IsComputed(st: Step)
  {
    st.outcome.Computed?
  }

  function SheetOf(st: Step): Sheet
  {
    Sheet(st.title, if st.outcome.Computed? then st.outcome.rows else [])
  }

  /** A run succeeds exactly when no analysis raised. */
  lemma {:induction false} CollectSucceeds(steps: seq<Step>)
    ensures Collect(steps).1 <==> forall i :: 0 <= i < |steps| ==> !Raises(steps[i].outcome)
  {
    if steps != [] {
      CollectSucceeds(steps[1..]);
      assert forall i :: 1 <= i < |steps| ==> steps[i] == steps[1..][i - 1];
    }
  }

  /** A successful run's sheets are the tables of the computed analyses, in order, under
      their titles. */
  lemma {:induction false} CollectSheets(steps: seq<Step>)
    ensures Collect(steps).1 ==> Collect(steps).0 == MapSeq(Filter(steps, IsComputed), SheetOf)
  {
    if steps != [] {
      CollectSheets(steps[1..]);
      var rest := Filter(steps[1..], IsComputed);
      if IsComputed(steps[0]) {
        assert Filter(steps, IsComputed) == [steps[0]] + rest;
        assert MapSeq([steps[0]] + rest, SheetOf) == [SheetOf(steps[0])] + MapSeq(rest, SheetOf);
      } else {
        assert Filter(steps, IsComputed) == rest;
      }
    }
  }

  /** A single step adds its table, adds nothing, or raises. */
  lemma CollectSingle(st: Step)
    ensures Collect([st]) == match st.outcome
      case Computed(t) => ([Sheet(st.title, t)], true)
      case Skipped => ([], true)
      case MonthMissing => ([], false)
      case ColumnMissing => ([], false)
  {
    assert [st][1..] == [];
    if st.outcome.Computed? {
      assert [Sheet(st.title, st.outcome.rows)] + [] == [Sheet(st.title, st.outcome.rows)];
    }
  }

  /** Without 实付金额 the first groupby of a non-empty plan raises, so no run
      completes. */
  lemma PaidColumnNeeded(plan: seq<Spec>, columns: seq<string>, regular: seq<Row>, special: seq<Row>, latest: Option<int>)
    requires PaidColumn !in columns && plan != []
    ensures !Collect(Steps(plan, columns, regular, special, latest)).1
  {
    var steps := Steps(plan, columns, regular, special, latest);
    assert Raises(steps[0].outcome);
    CollectSucceeds(steps);
  }

  /** Steps of a plan in two parts are the steps of each part. */
  lemma StepsAppend(a: seq<Spec>, b: seq<Spec>, columns: seq<string>, regular: seq<Row>, special: seq<Row>, latest: Option<int>)
    ensures Steps(a + b, columns, regular, special, latest) == Steps(a, columns, regular, special, latest) + Steps(b, columns, regular, special, latest)
  {
    var l := Steps(a + b, columns, regular, special, latest);
    var r := Steps(a, columns, regular, special, latest) + Steps(b, columns, regular, special, latest);
    forall i | 0 <= i < |l| ensures l[i] == r[i] {
      if i < |a| {
        assert (a + b)[i] == a[i];
      } else {
        assert (a + b)[i] == b[i - |a|];
      }
    }
  }

  /** Running one more analysis of the plan adds its table, adds nothing, or raises. */
  lemma StepsNext(plan: seq<Spec>, k: nat, columns: seq<string>, regular: seq<Row>, special: seq<Row>, latest: Option<int>)
    requires k < |plan|
    requires Collect(Steps(plan[..k], columns, regular, special, latest)).1
    ensures var done := Collect(Steps(plan[..k], columns, regular, special, latest)).0;
      var a := Attempt(columns, if plan[k].special then special else regular, plan[k].dims, latest);
      Collect(Steps(plan[..k + 1], columns, regular, special, latest)) == match a
        case Computed(t) => (done + [Sheet(plan[k].title, t)], true)
        case Skipped => (done, true)
        case MonthMissing => (done, false)
        case ColumnMissing => (done, false)
  {
    var step := plan[k];
    var next := Step(step.title, Attempt(columns, if step.special then special else regular, step.dims, latest));
    StepsAppend(plan[..k], [step], columns, regular, special, latest);
    assert Steps([step], columns, regular, special, latest) == [next];
    assert plan[..k + 1] == plan[..k] + [step];
    assert Steps(plan[..k + 1], columns, regular, special, latest) == Steps(plan[..k], columns, regular, special, latest) + [next];
    CollectSingle(next);
    CollectAppend(Steps(plan[..k], columns, regular, special, latest), [next]);
    var done := Collect(Steps(plan[..k], columns, regular, special, latest)).0;
    assert done + [] == done;
  }

  /** Once an analysis of the plan raises, the whole run raises. */
  lemma StepsRaise(plan: seq<Spec>, k: nat, columns: seq<string>, regular: seq<Row>, special: seq<Row>, latest: Option<int>)
    requires k <= |plan|
    requires !Collect(Steps(plan[..k], columns, regular, special, latest)).1
    ensures !Collect(Steps(plan, columns, regular, special, latest)).1
  {
    assert plan == plan[..k] + plan[k..];
    StepsAppend(plan[..k], plan[k..], columns, regular, special, latest);
    CollectAppend(Steps(plan[..k], columns, regular, special, latest), Steps(plan[k..], columns, regular, special, latest));
  }

  /** to_excel's sheet_name=title[:31]: the first 31 characters. */
  function SheetName(title: string): (r: string)
    ensures |r| == if |title| <= 31 then |title| else 31
    ensures r <= title
  {
    if |title| <= 31 then title else title[..31]
  }

  /** The dimension loop's titles are a column name and 分析, a few characters long. */
  lemma {:induction false} DimPlanTitles(columns: seq<string>, dims: seq<Dim>)
    ensures forall s :: s in DimPlan(columns, dims) ==> |s.title| <= 6 && !s.special
  {
    if dims != [] {
      DimPlanTitles(columns, dims[1..]);
    }
  }

  /** Every title of the report is at most 31 characters, so each sheet is named by its
      full title. */
  lemma SheetNamesAreTitles(columns: seq<string>, hasSpecial: bool)
    ensures forall s :: s in Plan(columns, hasSpecial) ==> SheetName(s.title) == s.title
  {
    DimPlanTitles(columns, [MainType, Category, OrderType]);
    assert |"客户维度分析"| == 6 && |"特殊商品客户分析"| == 8;
  }

  /** What a press of the analysis ends with. */
  datatype Status = NoDateColumn | KeyError | Done

  /** The `results` dict of the page, filled in place. */
  class Report {
    var results: seq<Sheet>

    constructor()
      ensures results == []
    {
      results := [];
    }

    /** One `results[title] = ...` step: the table is added when there is one. */
    method Add(title: string, columns: seq<string>, rows: seq<Row>, dims: seq<Dim>, latest: Option<int>)
      returns (ok: bool)
      modifies this
      ensures ok <==> !Raises(Attempt(columns, rows, dims, latest))
      ensures Attempt(columns, rows, dims, latest).Computed? ==>
        results == old(results) + [Sheet(title, Attempt(columns, rows, dims, latest).rows)]
      ensures !Attempt(columns, rows, dims, latest).Computed? ==> results == old(results)
    {
      var a := Attempt(columns, rows, dims, latest);
      if Raises(a) {
        return false;
      }
      if a.Computed? {
        results := results + [Sheet(title, a.rows)];
      }
      ok := true;
    }

    /** The analyses of a plan run in order, each table added to a fresh `results`,
        until the first one that raises. */
    method RunPlan(plan: seq<Spec>, columns: seq<string>, regular: seq<Row>, special: seq<Row>, latest: Option<int>)
      returns (ok: bool)
      modifies this
      ensures ok == Collect(Steps(plan, columns, regular, special, latest)).1
      ensures ok ==> results == Collect(Steps(plan, columns, regular, special, latest)).0
    {
      results := [];
      var k := 0;
      while k < |plan|
        invariant 0 <= k <= |plan|
        invariant Collect(Steps(plan[..k], columns, regular, special, latest)) == (results, true)
      {
        var step := plan[k];
        var rows := if step.special then special else regular;
        var added := Add(step.title, columns, rows, step.dims, latest);
        StepsNext(plan, k, columns, regular, special, latest);
        if !added {
          StepsRaise(plan, k + 1, columns, regular, special, latest);
          return false;
        }
        k := k + 1;
      }
      assert plan[..k] == plan;
      ok := true;
    }

    /** The analysis of an uploaded table: an error without 下单时间; a KeyError without
        商品名称, read by the split into main_df and special_df; otherwise the analyses
        of the plan run in order on main_df or special_df, each table added to `results`,
        until the first KeyError. */
    method Run(raw: Table) returns (status: Status)
      modifies this
      ensures status == NoDateColumn <==> DateColumn !in raw.columns
      ensures DateColumn in raw.columns && ProductColumn !in raw.columns ==> status == KeyError
      ensures status == NoDateColumn || ProductColumn !in raw.columns ==> results == old(results)
      ensures DateColumn in raw.columns && ProductColumn in raw.columns ==>
        var expected := Collect(Steps(Plan(raw.columns, Special(raw.rows) != []), raw.columns,
                                      Regular(raw.rows), Special(raw.rows), LatestMonth(raw.rows)));
        (status == Done <==> expected.1) && (status == Done ==> results == expected.0)
    {
      if DateColumn !in raw.columns {
        return NoDateColumn;
      }
      if ProductColumn !in raw.columns {
        return KeyError;
      }
      var regular := Regular(raw.rows);
      var special := Special(raw.rows);
      var ok := RunPlan(Plan(raw.columns, special != []), raw.columns, regular, special, LatestMonth(raw.rows));
      status := if ok then Done else KeyError;
    }
  }
}
