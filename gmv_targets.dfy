/** app006.py: per-BD ranking of customers by monthly average GMV, and the GMV targets of
    the customers whose rank lies in a chosen window. */
module GmvTargets {
  import opened Common

  /** A calendar date; only its year and month matter here. */
  datatype Date = Date(year: int, month: int, day: int)

  /** A period of `to_period('M')`. */
  datatype Month = Month(year: int, month: int)

  /** A sales row, holding both candidate columns of each fallback; None is NaN/NaT. */
  datatype Row = Row(product: Option<string>, custId: Option<string>, mId: Option<string>,
                     name: Option<string>, bd: Option<string>,
                     dateCell: Option<Date>, orderTime: Option<Date>,
                     paidGmv: Option<real>, paidAmount: Option<real>)

  /** The key of customer_avg_gmv: (BD, customer id, 客户名称). */
  datatype CustomerKey = CustomerKey(bd: string, id: string, name: string)

  /** A row that reaches the monthly group-by: its keys are all present. */
  datatype Entry = Entry(customer: CustomerKey, month: Month, gmv: real)

  /** The key of monthly_gmv. */
  datatype MonthKey = MonthKey(customer: CustomerKey, month: Month)

  /** One customer's 月平均GMV. */
  datatype Average = Average(customer: CustomerKey, avg: real)

  /** A row of filtered_customers: 月平均GMV, 排名 and 目标. */
  datatype Target = Target(customer: CustomerKey, avg: real, rank: int, target: real)

  const Excluded: seq<string> := ["爱乐薇(铁塔)淡奶油", "安佳淡奶油"]

  // ---------------------------------------------------------------------------
  // Filtering and column choice
  // ---------------------------------------------------------------------------

  /** ~isin(Excluded): a row with no 商品名称 is kept. */
  predicate Kept(r: Row)
  {
    !(r.product.Some? && r.product.value in Excluded)
  }

  predicate Dropped(r: Row) { !Kept(r) }

  /** cust_id_col, date_col and gmv_col: the first name if present, else the fallback. */
  function CustColumn(columns: seq<string>): string { if "cust_id" in columns then "cust_id" else "m_id" }
  function DateColumn(columns: seq<string>): string { if "日期" in columns then "日期" else "下单时间" }
  function GmvColumn(columns: seq<string>): string { if "实付GMV" in columns then "实付GMV" else "实付金额" }

  function CustOf(columns: seq<string>, r: Row): Option<string>
  {
    if CustColumn(columns) == "cust_id" then r.custId else r.mId
  }

  function DateOf(columns: seq<string>, r: Row): Option<Date>
  {
    if DateColumn(columns) == "日期" then r.dateCell else r.orderTime
  }

  /** The GMV cell as `sum` counts it: NaN adds nothing. */
  function GmvOf(columns: seq<string>, r: Row): real
  {
    var cell := if GmvColumn(columns) == "实付GMV" then r.paidGmv else r.paidAmount;
    if cell.Some? then cell.value else 0.0
  }

  function Gmv(columns: seq<string>): Row -> real
  {
    (r: Row) => GmvOf(columns, r)
  }

  /** total_gmv: the GMV of every row that is not excluded. */
  function TotalGmv(columns: seq<string>, rows: seq<Row>): real
  {
    SumOf(Filter(rows, Kept), Gmv(columns))
  }

  // ---------------------------------------------------------------------------
  // Monthly sums, averages and ranks
  // ---------------------------------------------------------------------------

  /** The kept rows that the group-by keeps: customer id, 客户名称, BD and month present. */
  function Entries(columns: seq<string>, rows: seq<Row>): seq<Entry>
  {
    if rows == [] then []
    else
      var r := rows[0];
      var id := CustOf(columns, r);
      var date := DateOf(columns, r);
      (if Kept(r) && id.Some? && r.name.Some? && r.bd.Some? && date.Some?
       then [Entry(CustomerKey(r.bd.value, id.value, r.name.value), Month(date.value.year, date.value.month), GmvOf(columns, r))]
       else [])
      + Entries(columns, rows[1..])
  }

  function EntryMonthKey(e: Entry): MonthKey { MonthKey(e.customer, e.month) }
  function EntryCustomer(e: Entry): CustomerKey { e.customer }
  function EntryGmv(e: Entry): real { e.gmv }

  /** The distinct months of a customer, by first appearance. */
  function MonthsOf(entries: seq<Entry>, c: CustomerKey): (r: seq<Month>)
    ensures NoDups(r)
    ensures forall m :: m in r <==> exists i :: 0 <= i < |entries| && entries[i].customer == c && entries[i].month == m
  {
    if entries == [] then []
    else
      var n := |entries| - 1;
      var rest := MonthsOf(entries[..n], c);
      assert forall i :: 0 <= i < n ==> entries[..n][i] == entries[i];
      if entries[n].customer != c || entries[n].month in rest then rest
      else
        assert NoDups(rest + [entries[n].month]) by {
          var s := rest + [entries[n].month];
          forall i, j | 0 <= i < j < |s| ensures s[i] != s[j] {
            if j == |rest| { assert s[i] == rest[i]; }
          }
        }
        rest + [entries[n].month]
  }

  function KeysOfMonths(c: CustomerKey, months: seq<Month>): (r: seq<MonthKey>)
    ensures |r| == |months| && forall i :: 0 <= i < |r| ==> r[i] == MonthKey(c, months[i])
  {
    seq(|months|, i requires 0 <= i < |months| => MonthKey(c, months[i]))
  }

  /** The distinct customers, by first appearance. */
  function Customers(entries: seq<Entry>): (r: seq<CustomerKey>)
    ensures NoDups(r)
    ensures forall c :: c in r <==> exists i :: 0 <= i < |entries| && entries[i].customer == c
  {
    if entries == [] then []
    else
      var n := |entries| - 1;
      var rest := Customers(entries[..n]);
      assert forall i :: 0 <= i < n ==> entries[..n][i] == entries[i];
      if entries[n].customer in rest then rest
      else
        assert NoDups(rest + [entries[n].customer]) by {
          var s := rest + [entries[n].customer];
          forall i, j | 0 <= i < j < |s| ensures s[i] != s[j] {
            if j == |rest| { assert s[i] == rest[i]; }
          }
        }
        rest + [entries[n].customer]
  }

  /** 月平均GMV: the mean, over the customer's months, of that month's GMV sum. */
  function AverageOf(entries: seq<Entry>, c: CustomerKey): real
  {
    var months := MonthsOf(entries, c);
    if months == [] then 0.0
    else SumOverKeys(entries, EntryMonthKey, KeysOfMonths(c, months), EntryGmv) / |months| as real
  }

  function Averages(entries: seq<Entry>): (r: seq<Average>)
    ensures |r| == |Customers(entries)|
  {
    var cs := Customers(entries);
    seq(|cs|, i requires 0 <= i < |cs| => Average(cs[i], AverageOf(entries, cs[i])))
  }

  /** The number of same-BD customers with a strictly larger average. */
  function CountLarger(avgs: seq<Average>, bd: string, v: real): (r: nat)
    ensures r <= |avgs|
  {
    if avgs == [] then 0
    else (if avgs[0].customer.bd == bd && avgs[0].avg > v then 1 else 0) + CountLarger(avgs[1..], bd, v)
  }

  /** rank(method='min', ascending=False) within BD. */
  function Rank(avgs: seq<Average>, a: Average): int
  {
    1 + CountLarger(avgs, a.customer.bd, a.avg)
  }

  predicate InWindow(minRank: int, maxRank: int, t: Target)
  {
    minRank <= t.rank <= maxRank
  }

  function Window(minRank: int, maxRank: int): Target -> bool
  {
    (t: Target) => InWindow(minRank, maxRank, t)
  }

  /** 目标 = 月平均GMV × (1 + pct/100). */
  function TargetOf(pct: real, avg: real): real
  {
    avg * (1.0 + pct / 100.0)
  }

  function Ranked(avgs: seq<Average>, pct: real): (r: seq<Target>)
    ensures |r| == |avgs|
  {
    seq(|avgs|, i requires 0 <= i < |avgs| =>
      Target(avgs[i].customer, avgs[i].avg, Rank(avgs, avgs[i]), TargetOf(pct, avgs[i].avg)))
  }

  /** analyze_data: the GMV total and the customers ranked within the window. */
  function Analyze(columns: seq<string>, rows: seq<Row>, pct: real, minRank: int, maxRank: int): (seq<Target>, real)
  {
    var avgs := Averages(Entries(columns, rows));
    (Filter(Ranked(avgs, pct), Window(minRank, maxRank)), TotalGmv(columns, rows))
  }

  /** df.columns.str.strip(): the header the column choice looks at. */
  function Stripped(header: seq<string>): (r: seq<string>)
    ensures |r| == |header|
    ensures (forall k :: 0 <= k < |header| ==> Trim(header[k]) == header[k]) ==> r == header
  {
    MapSeq(header, Trim)
  }

  /** Every column analyze_data reads is in the uploaded header. filtered_df is taken
      before the header is stripped, so it keeps the unstripped names, while the
      fallback choice looks at the stripped ones. */
  predicate ReadsFound(header: seq<string>)
  {
    var columns := Stripped(header);
    && "商品名称" in header && "客户名称" in header && "BD" in header
    && GmvColumn(columns) in header
    && DateColumn(columns) in header
    && CustColumn(columns) in header
  }

  /** analyze_data as the page calls it: a column it reads that the file lacks raises
      KeyError (None); the page has no handler for it. */
  function AnalyzeData(header: seq<string>, rows: seq<Row>, pct: real, minRank: int, maxRank: int)
    : (r: Option<(seq<Target>, real)>)
    ensures r.None? ==>
              || "商品名称" !in header || "客户名称" !in header || "BD" !in header
              || !("实付GMV" in header || "实付金额" in header)
              || !("日期" in header || "下单时间" in header)
              || !("cust_id" in header || "m_id" in header)
              || exists k :: 0 <= k < |header| && Trim(header[k]) != header[k]
    ensures r.Some? ==>
              && "商品名称" in header && "客户名称" in header && "BD" in header
              && ("实付GMV" in header || "实付金额" in header)
              && ("日期" in header || "下单时间" in header)
              && ("cust_id" in header || "m_id" in header)
              && r.value == Analyze(Stripped(header), rows, pct, minRank, maxRank)
  {
    if ReadsFound(header) then
      ChosenIsCandidate(Stripped(header));
      Some(Analyze(Stripped(header), rows, pct, minRank, maxRank))
    else
      MissingRead(header);
      None
  }

  /** A failed read comes from a missing column or from a padded header name. */
  lemma MissingRead(header: seq<string>)
    requires !ReadsFound(header)
    ensures || "商品名称" !in header || "客户名称" !in header || "BD" !in header
            || !("实付GMV" in header || "实付金额" in header)
            || !("日期" in header || "下单时间" in header)
            || !("cust_id" in header || "m_id" in header)
            || exists k :: 0 <= k < |header| && Trim(header[k]) != header[k]
  {
    if forall k :: 0 <= k < |header| ==> Trim(header[k]) == header[k] {
      assert Stripped(header) == header;
      ChosenFound(header);
    }
  }

  /** Each chosen column is one of its two candidates. */
  lemma ChosenIsCandidate(columns: seq<string>)
    ensures GmvColumn(columns) == "实付GMV" || GmvColumn(columns) == "实付金额"
    ensures DateColumn(columns) == "日期" || DateColumn(columns) == "下单时间"
    ensures CustColumn(columns) == "cust_id" || CustColumn(columns) == "m_id"
  {
  }

  /** On a header the choice looks at itself, a chosen column is found exactly when
      one of its two candidates is. */
  lemma ChosenFound(header: seq<string>)
    ensures GmvColumn(header) in header <==> "实付GMV" in header || "实付金额" in header
    ensures DateColumn(header) in header <==> "日期" in header || "下单时间" in header
    ensures CustColumn(header) in header <==> "cust_id" in header || "m_id" in header
  {
  }

  // ---------------------------------------------------------------------------
  // Properties
  // ---------------------------------------------------------------------------

  /** The two cream products never reach any sum. */
  lemma {:induction false} EntriesKept(columns: seq<string>, rows: seq<Row>, e: Entry)
    requires e in Entries(columns, rows)
    ensures exists r :: (r in rows && Kept(r) && CustOf(columns, r) == Some(e.customer.id)
      && r.name == Some(e.customer.name) && r.bd == Some(e.customer.bd) && GmvOf(columns, r) == e.gmv)
  {
    if e in Entries(columns, rows[1..]) {
      EntriesKept(columns, rows[1..], e);
      var r :| r in rows[1..] && Kept(r) && CustOf(columns, r) == Some(e.customer.id)
        && r.name == Some(e.customer.name) && r.bd == Some(e.customer.bd) && GmvOf(columns, r) == e.gmv;
      assert r in rows;
    } else {
      assert rows[0] in rows;
    }
  }

  lemma {:induction false} SumOfFilterSplit<T>(s: seq<T>, p: T -> bool, q: T -> bool, f: T -> real)
    requires forall x :: q(x) == !p(x)
    ensures SumOf(Filter(s, p), f) + SumOf(Filter(s, q), f) == SumOf(s, f)
  {
    if s != [] {
      SumOfFilterSplit(s[1..], p, q, f);
      var hp := if p(s[0]) then [s[0]] else [];
      var hq := if q(s[0]) then [s[0]] else [];
      SumOfAppend(hp, Filter(s[1..], p), f);
      SumOfAppend(hq, Filter(s[1..], q), f);
    }
  }

  /** total_gmv is the file's GMV sum less the GMV of the two excluded products. */
  lemma TotalExcludesCream(columns: seq<string>, rows: seq<Row>)
    ensures TotalGmv(columns, rows) == SumOf(rows, Gmv(columns)) - SumOf(Filter(rows, Dropped), Gmv(columns))
  {
    SumOfFilterSplit(rows, Kept, Dropped, Gmv(columns));
  }

  /** Column fallback: cust_id, 日期 and 实付GMV are used when present, else m_id,
      下单时间 and 实付金额. */
  lemma ColumnFallback(columns: seq<string>, r: Row)
    ensures CustOf(columns, r) == if "cust_id" in columns then r.custId else r.mId
    ensures DateOf(columns, r) == if "日期" in columns then r.dateCell else r.orderTime
    ensures ("实付GMV" in columns && r.paidGmv.Some?) ==> GmvOf(columns, r) == r.paidGmv.value
    ensures ("实付GMV" !in columns && r.paidAmount.Some?) ==> GmvOf(columns, r) == r.paidAmount.value
  {
    assert "cust_id" != "m_id" && "日期" != "下单时间" && "实付GMV" != "实付金额";
  }

  /** Summing per month and adding the months of one customer up gives that customer's
      total: only its own entries fall in its month groups. */
  lemma {:induction false} MonthSumsAddUp(entries: seq<Entry>, all: seq<Entry>, c: CustomerKey)
    requires forall x :: x in entries ==> x in all
    ensures SumOverKeys(entries, EntryMonthKey, KeysOfMonths(c, MonthsOf(all, c)), EntryGmv)
      == SumWithKey(entries, EntryCustomer, c, EntryGmv)
  {
    var keys := KeysOfMonths(c, MonthsOf(all, c));
    assert NoDups(keys) by {
      forall i, j | 0 <= i < j < |keys| ensures keys[i] != keys[j] {
        assert MonthsOf(all, c)[i] != MonthsOf(all, c)[j];
      }
    }
    if entries == [] {
      SumOverKeysOfEmpty(EntryMonthKey, keys, EntryGmv);
    } else {
      var x := entries[0];
      SumOverKeysStep(entries, EntryMonthKey, keys, EntryGmv);
      assert forall y :: y in entries[1..] ==> y in all;
      MonthSumsAddUp(entries[1..], all, c);
      if x.customer == c {
        assert x in entries;
        var i :| 0 <= i < |all| && all[i] == x;
        assert x.month in MonthsOf(all, c);
        var m :| 0 <= m < |MonthsOf(all, c)| && MonthsOf(all, c)[m] == x.month;
        assert keys[m] == EntryMonthKey(x);
      } else {
        assert EntryMonthKey(x) !in keys by {
          forall i | 0 <= i < |keys| ensures keys[i] != EntryMonthKey(x) { }
        }
      }
    }
  }

  /** 月平均GMV is the customer's total GMV divided by the number of months in which it
      ordered. */
  lemma AverageIsTotalPerMonth(entries: seq<Entry>, c: CustomerKey)
    requires c in Customers(entries)
    ensures MonthsOf(entries, c) != []
    ensures AverageOf(entries, c) == SumWithKey(entries, EntryCustomer, c, EntryGmv) / |MonthsOf(entries, c)| as real
  {
    var i :| 0 <= i < |entries| && entries[i].customer == c;
    assert entries[i].month in MonthsOf(entries, c);
    MonthSumsAddUp(entries, entries, c);
  }

  /** Counting larger averages: a threshold that is not smaller sees no more of them. */
  lemma {:induction false} CountLargerMonotone(avgs: seq<Average>, bd: string, v: real, w: real)
    requires v <= w
    ensures CountLarger(avgs, bd, w) <= CountLarger(avgs, bd, v)
    ensures (exists i :: 0 <= i < |avgs| && avgs[i].customer.bd == bd && v < avgs[i].avg <= w) ==>
      CountLarger(avgs, bd, w) < CountLarger(avgs, bd, v)
  {
    if avgs != [] {
      CountLargerMonotone(avgs[1..], bd, v, w);
      if exists i :: 0 <= i < |avgs| && avgs[i].customer.bd == bd && v < avgs[i].avg <= w {
        var i :| 0 <= i < |avgs| && avgs[i].customer.bd == bd && v < avgs[i].avg <= w;
        if i > 0 { assert avgs[1..][i - 1] == avgs[i]; }
      }
    }
  }

  lemma {:induction false} CountLargerZero(avgs: seq<Average>, bd: string, v: real)
    ensures CountLarger(avgs, bd, v) == 0 <==> forall i :: 0 <= i < |avgs| && avgs[i].customer.bd == bd ==> avgs[i].avg <= v
  {
    if avgs != [] {
      CountLargerZero(avgs[1..], bd, v);
      assert forall i :: 1 <= i < |avgs| ==> avgs[i] == avgs[1..][i - 1];
    }
  }

  /** 排名 with method='min': at least 1; equal averages in one BD share a rank; a larger
      average in the same BD ranks strictly better; rank 1 goes to every customer that
      no same-BD customer beats. */
  lemma RankFacts(avgs: seq<Average>, a: Average, b: Average)
    requires a in avgs && b in avgs && a.customer.bd == b.customer.bd
    ensures Rank(avgs, a) >= 1
    ensures a.avg == b.avg ==> Rank(avgs, a) == Rank(avgs, b)
    ensures a.avg > b.avg ==> Rank(avgs, a) < Rank(avgs, b)
    ensures Rank(avgs, a) == 1 <==> forall c :: c in avgs && c.customer.bd == a.customer.bd ==> c.avg <= a.avg
  {
    if a.avg > b.avg {
      var i :| 0 <= i < |avgs| && avgs[i] == a;
      CountLargerMonotone(avgs, a.customer.bd, b.avg, a.avg);
    }
    CountLargerZero(avgs, a.customer.bd, a.avg);
  }

  /** The returned customers are exactly the ranked ones inside [min_rank, max_rank],
      each with its target. */
  lemma WindowIff(columns: seq<string>, rows: seq<Row>, pct: real, minRank: int, maxRank: int, t: Target)
    ensures t in Analyze(columns, rows, pct, minRank, maxRank).0 <==>
      exists a :: a in Averages(Entries(columns, rows))
        && t == Target(a.customer, a.avg, Rank(Averages(Entries(columns, rows)), a), TargetOf(pct, a.avg))
        && minRank <= t.rank <= maxRank
  {
    var avgs := Averages(Entries(columns, rows));
    var ranked := Ranked(avgs, pct);
    FilterMember(ranked, Window(minRank, maxRank), t);
    if t in ranked {
      var i :| 0 <= i < |ranked| && ranked[i] == t;
      assert avgs[i] in avgs;
    }
    if exists a :: a in avgs && t == Target(a.customer, a.avg, Rank(avgs, a), TargetOf(pct, a.avg))
        && minRank <= t.rank <= maxRank {
      var a :| a in avgs && t == Target(a.customer, a.avg, Rank(avgs, a), TargetOf(pct, a.avg))
        && minRank <= t.rank <= maxRank;
      var i :| 0 <= i < |avgs| && avgs[i] == a;
      assert ranked[i] == t;
    }
  }

  /** A target raised by pct ≥ 0 percent is never below a non-negative average. */
  lemma TargetRaises(pct: real, avg: real)
    requires pct >= 0.0 && avg >= 0.0
    ensures TargetOf(pct, avg) >= avg
    ensures TargetOf(pct, avg) - avg == avg * pct / 100.0
  {
  }
}
