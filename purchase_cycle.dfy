/** app005.py: the purchase cycle of one product. For every customer the gaps between
    consecutive orders are measured; per (客户名称, BD) the mean, shortest and longest gap
    are reported with a predicted next purchase date. */
module PurchaseCycle {
  import opened Common

  /** An order row; None is NaN (or NaT for the date). Dates are day numbers. */
  datatype Order = Order(product: Option<string>, date: Option<int>, customer: Option<string>,
                         bd: Option<string>)

  /** An order that survived dropna on 下单时间. */
  datatype Visit = Visit(customer: Option<string>, bd: Option<string>, date: int)

  /** A summary group: (客户名称, BD). */
  datatype GroupKey = GroupKey(customer: string, bd: string)

  /** One output row. `mean`, `shortest` and `longest` are 平均/最短/最长购买周期(天),
      `latest` is 最近一次下单时间 and `predicted` is 预测购买时间 (as day numbers). */
  datatype Summary = Summary(customer: string, bd: string, mean: real, shortest: int, longest: int,
                             latest: int, predicted: int, product: string)

  datatype Outcome =
    | EmptyName         // "请输入要查询的商品名称。"
    | MissingColumns    // analyze_data returns None: a required column is absent
    | NotFound          // analyze_data returns None: no row has this 商品名称
    | Analysed(rows: seq<Summary>)

  const RequiredColumns: seq<string> := ["商品名称", "下单时间", "客户名称", "BD"]

  function NamedProduct(name: string): Order -> bool
  {
    (o: Order) => o.product == Some(name)
  }

  /** The rows of the product, with an exact comparison (NaN equals no name). */
  function OfProduct(rows: seq<Order>, name: string): seq<Order>
  {
    Filter(rows, NamedProduct(name))
  }

  /** dropna(subset=['下单时间']) */
  function Visits(rows: seq<Order>): (r: seq<Visit>)
    ensures |r| <= |rows|
  {
    if rows == [] then []
    else
      (if rows[0].date.Some? then [Visit(rows[0].customer, rows[0].bd, rows[0].date.value)] else [])
      + Visits(rows[1..])
  }

  /** In sort_values(['客户名称', '下单时间']) order, visit j of the same customer comes
      before visit i (ties kept in input order). */
  predicate Precedes(vs: seq<Visit>, j: nat, i: nat)
    requires j < |vs| && i < |vs|
  {
    vs[j].customer == vs[i].customer
    && (vs[j].date < vs[i].date || (vs[j].date == vs[i].date && j < i))
  }

  /** The latest of the first n visits that precede visit i. */
  function PrevIn(vs: seq<Visit>, i: nat, n: nat): (r: Option<nat>)
    requires i < |vs| && n <= |vs|
    ensures r.Some? ==> r.value < n && Precedes(vs, r.value, i)
  {
    if n == 0 then None
    else
      var b := PrevIn(vs, i, n - 1);
      if !Precedes(vs, n - 1, i) then b
      else if b.None? || Precedes(vs, b.value, n - 1) then Some(n - 1)
      else b
  }

  /** groupby('客户名称')['下单时间'].diff().dt.days: the days since the same customer's
      previous order in sorted order; None for a first order or a missing customer. */
  function Interval(vs: seq<Visit>, i: nat): (r: Option<int>)
    requires i < |vs|
  {
    if vs[i].customer.None? then None
    else
      match PrevIn(vs, i, |vs|)
      case None => None
      case Some(j) => Some(vs[i].date - vs[j].date)
  }

  function KeyOf(v: Visit): Option<GroupKey>
  {
    if v.customer.Some? && v.bd.Some? then Some(GroupKey(v.customer.value, v.bd.value)) else None
  }

  /** The intervals of group k among the first n visits, in input order. */
  function GroupIntervals(vs: seq<Visit>, k: GroupKey, n: nat): (r: seq<int>)
    requires n <= |vs|
  {
    if n == 0 then []
    else
      GroupIntervals(vs, k, n - 1)
      + (if KeyOf(vs[n - 1]) == Some(k) && Interval(vs, n - 1).Some? then [Interval(vs, n - 1).value] else [])
  }

  /** The distinct summary groups among the first n visits, by first appearance. */
  function GroupKeys(vs: seq<Visit>, n: nat): (r: seq<GroupKey>)
    requires n <= |vs|
    ensures NoDups(r)
    ensures forall k :: k in r <==> exists i :: 0 <= i < n && KeyOf(vs[i]) == Some(k)
  {
    if n == 0 then []
    else
      var rest := GroupKeys(vs, n - 1);
      match KeyOf(vs[n - 1])
      case None => rest
      case Some(k) =>
        if k in rest then rest
        else
          assert NoDups(rest + [k]) by {
            forall i, j | 0 <= i < j < |rest + [k]| ensures (rest + [k])[i] != (rest + [k])[j] {
              if j == |rest| { assert (rest + [k])[i] == rest[i]; }
            }
          }
          rest + [k]
  }

  function SumInts(s: seq<int>): int
  {
    if s == [] then 0 else s[0] + SumInts(s[1..])
  }

  /** The 'mean' aggregation (its value for no intervals is never used). */
  function Mean(s: seq<int>): real
  {
    if s == [] then 0.0 else SumInts(s) as real / |s| as real
  }

  /** The 'min' aggregation. */
  function Least(s: seq<int>): int
  {
    if |s| <= 1 then (if s == [] then 0 else s[0])
    else var m := Least(s[1..]); if s[0] < m then s[0] else m
  }

  /** The 'max' aggregation. */
  function Greatest(s: seq<int>): int
  {
    if |s| <= 1 then (if s == [] then 0 else s[0])
    else var m := Greatest(s[1..]); if s[0] > m then s[0] else m
  }

  /** recent_order: the customer's latest 下单时间 over all of the product's orders. */
  function LatestDate(vs: seq<Visit>, customer: string): Option<int>
  {
    if vs == [] then None
    else
      var rest := LatestDate(vs[1..], customer);
      if vs[0].customer != Some(customer) then rest
      else if rest.None? || rest.value < vs[0].date then Some(vs[0].date)
      else rest
  }

  /** The summary row of one group, with the predicted date of line 72: the latest order
      plus the mean gap, as a calendar day. */
  function Summarise(vs: seq<Visit>, product: string, k: GroupKey): Summary
  {
    var s := GroupIntervals(vs, k, |vs|);
    var latest := match LatestDate(vs, k.customer) case None => 0 case Some(d) => d;
    var mean := Mean(s);
    Summary(k.customer, k.bd, mean, Least(s), Greatest(s), latest, latest + mean.Floor, product)
  }

  /** Line 77: groups with no interval have NaN statistics and are dropped. */
  function HasIntervals(vs: seq<Visit>): GroupKey -> bool
  {
    (k: GroupKey) => GroupIntervals(vs, k, |vs|) != []
  }

  /** Lines 78-82: a row is kept unless its mean, shortest and longest gap are all 0. */
  predicate NotAllZero(s: Summary)
  {
    s.mean != 0.0 || s.shortest != 0 || s.longest != 0
  }

  /** The rows analyze_data returns for one product (group order not modelled). */
  function Summaries(vs: seq<Visit>, product: string): seq<Summary>
  {
    var keys := Filter(GroupKeys(vs, |vs|), HasIntervals(vs));
    Filter(MapSeq(keys, (k: GroupKey) => Summarise(vs, product, k)), NotAllZero)
  }

  /** The 查询 button: the product name is stripped, then analyze_data (lines 39-84). */
  function Query(columns: seq<string>, rows: seq<Order>, name: string): (r: Outcome)
    ensures r.EmptyName? <==> forall k :: 0 <= k < |name| ==> IsSpace(name[k])
    ensures r.MissingColumns? <==> Trim(name) != "" && !HasColumns(RequiredColumns, columns)
    ensures r.NotFound? <==>
      Trim(name) != "" && HasColumns(RequiredColumns, columns) && OfProduct(rows, Trim(name)) == []
    ensures r.Analysed? ==> r.rows == Summaries(Visits(OfProduct(rows, Trim(name))), Trim(name))
  {
    TrimEmptyIff(name);
    var q := Trim(name);
    if q == "" then EmptyName
    else if !HasColumns(RequiredColumns, columns) then MissingColumns
    else if OfProduct(rows, q) == [] then NotFound
    else Analysed(Summaries(Visits(OfProduct(rows, q)), q))
  }

  // ---------------------------------------------------------------------------
  // Properties
  // ---------------------------------------------------------------------------

  /** Only the queried product's rows are analysed: a row is kept iff its 商品名称 equals
      the name exactly. */
  lemma OfProductIff(rows: seq<Order>, name: string, o: Order)
    ensures o in OfProduct(rows, name) <==> o in rows && o.product == Some(name)
  {
    FilterMember(rows, NamedProduct(name), o);
  }

  /** dropna keeps exactly the dated orders, with their customer and BD. */
  lemma {:induction false} VisitsIff(rows: seq<Order>, v: Visit)
    ensures v in Visits(rows) <==>
      exists o :: o in rows && o.date == Some(v.date) && o.customer == v.customer && o.bd == v.bd
  {
    if rows != [] {
      VisitsIff(rows[1..], v);
      assert rows == [rows[0]] + rows[1..];
    }
  }

  /** The predecessor found is the latest visit of the same customer sorting before i;
      there is none exactly when no such visit exists. */
  lemma {:induction false} PrevInSpec(vs: seq<Visit>, i: nat, n: nat)
    requires i < |vs| && n <= |vs|
    ensures PrevIn(vs, i, n).None? <==> forall j :: 0 <= j < n ==> !Precedes(vs, j, i)
    ensures PrevIn(vs, i, n).Some? ==>
      forall j :: 0 <= j < n && Precedes(vs, j, i) ==> j == PrevIn(vs, i, n).value || Precedes(vs, j, PrevIn(vs, i, n).value)
  {
    if n > 0 {
      PrevInSpec(vs, i, n - 1);
    }
  }

  /** Every interval is a whole number of days ≥ 0, and the earliest order of a customer
      (the first in sorted order) has none. */
  lemma IntervalFacts(vs: seq<Visit>, i: nat)
    requires i < |vs|
    ensures Interval(vs, i).Some? ==> Interval(vs, i).value >= 0
    ensures Interval(vs, i).None? <==>
      vs[i].customer.None? || forall j :: 0 <= j < |vs| ==> !Precedes(vs, j, i)
  {
    PrevInSpec(vs, i, |vs|);
  }

  /** The interval of visit i is its gap to the latest earlier visit of the same customer. */
  lemma IntervalIsGap(vs: seq<Visit>, i: nat, j: nat)
    requires i < |vs| && j < |vs| && vs[i].customer.Some? && Precedes(vs, j, i)
    requires forall m :: 0 <= m < |vs| && Precedes(vs, m, i) ==> m == j || Precedes(vs, m, j)
    ensures Interval(vs, i) == Some(vs[i].date - vs[j].date)
  {
    PrevInSpec(vs, i, |vs|);
    PrecedesAsymmetric(vs, j, PrevIn(vs, i, |vs|).value);
  }

  lemma PrecedesAsymmetric(vs: seq<Visit>, a: nat, b: nat)
    requires a < |vs| && b < |vs|
    ensures !(Precedes(vs, a, b) && Precedes(vs, b, a))
  {
  }

  lemma {:induction false} GroupIntervalsNonNegative(vs: seq<Visit>, k: GroupKey, n: nat)
    requires n <= |vs|
    ensures forall m :: 0 <= m < |GroupIntervals(vs, k, n)| ==> GroupIntervals(vs, k, n)[m] >= 0
  {
    if n > 0 {
      GroupIntervalsNonNegative(vs, k, n - 1);
      IntervalFacts(vs, n - 1);
    }
  }

  lemma {:induction false} LeastSpec(s: seq<int>)
    requires s != []
    ensures Least(s) in s && forall m :: 0 <= m < |s| ==> Least(s) <= s[m]
  {
    if |s| > 1 {
      LeastSpec(s[1..]);
      assert forall m :: 1 <= m < |s| ==> s[m] == s[1..][m - 1];
    }
  }

  lemma {:induction false} GreatestSpec(s: seq<int>)
    requires s != []
    ensures Greatest(s) in s && forall m :: 0 <= m < |s| ==> s[m] <= Greatest(s)
  {
    if |s| > 1 {
      GreatestSpec(s[1..]);
      assert forall m :: 1 <= m < |s| ==> s[m] == s[1..][m - 1];
    }
  }

  lemma {:induction false} SumBounds(s: seq<int>, lo: int, hi: int)
    requires forall m :: 0 <= m < |s| ==> lo <= s[m] <= hi
    ensures |s| * lo <= SumInts(s) <= |s| * hi
  {
    if s != [] {
      SumBounds(s[1..], lo, hi);
    }
  }

  /** A sum of n values between lo and hi, divided by n, lies between lo and hi. */
  lemma QuotientBounds(n: int, lo: int, hi: int, sum: int)
    requires n > 0 && n * lo <= sum <= n * hi
    ensures lo as real <= sum as real / n as real <= hi as real
  {
    var q := sum as real / n as real;
    assert q * n as real == sum as real;
    assert (n * lo) as real == n as real * lo as real;
    assert (n * hi) as real == n as real * hi as real;
    assert n as real * (q - lo as real) >= 0.0;
    assert n as real * (hi as real - q) >= 0.0;
  }

  /** The statistics of a non-empty list of gaps: 0 ≤ min ≤ mean ≤ max. */
  lemma StatsOrdered(s: seq<int>)
    requires s != [] && forall m :: 0 <= m < |s| ==> s[m] >= 0
    ensures 0 <= Least(s) && Least(s) as real <= Mean(s) <= Greatest(s) as real
  {
    LeastSpec(s);
    GreatestSpec(s);
    SumBounds(s, Least(s), Greatest(s));
    QuotientBounds(|s|, Least(s), Greatest(s), SumInts(s));
  }

  /** Mean, shortest and longest gap are all 0 exactly when the longest gap is 0. */
  lemma AllZeroIff(s: seq<int>)
    requires s != [] && forall m :: 0 <= m < |s| ==> s[m] >= 0
    ensures (Mean(s) != 0.0 || Least(s) != 0 || Greatest(s) != 0) <==> Greatest(s) > 0
  {
    GreatestSpec(s);
    if Greatest(s) == 0 {
      LeastSpec(s);
      SumBounds(s, 0, 0);
    }
  }

  /** The customer's latest order date is the largest of its dated orders. */
  lemma {:induction false} LatestDateSpec(vs: seq<Visit>, customer: string)
    ensures LatestDate(vs, customer).None? <==> forall j :: 0 <= j < |vs| ==> vs[j].customer != Some(customer)
    ensures LatestDate(vs, customer).Some? ==>
      (exists j :: 0 <= j < |vs| && vs[j].customer == Some(customer) && vs[j].date == LatestDate(vs, customer).value)
      && forall j :: 0 <= j < |vs| && vs[j].customer == Some(customer) ==> vs[j].date <= LatestDate(vs, customer).value
  {
    if vs != [] {
      LatestDateSpec(vs[1..], customer);
      assert forall j :: 1 <= j < |vs| ==> vs[j] == vs[1..][j - 1];
      var rest := LatestDate(vs[1..], customer);
      if rest.Some? {
        var j :| 0 <= j < |vs[1..]| && vs[1..][j].customer == Some(customer) && vs[1..][j].date == rest.value;
        assert vs[j + 1].customer == Some(customer);
      }
    }
  }

  /** A group whose interval list is non-empty has a dated visit of its customer. */
  lemma {:induction false} GroupIntervalsHaveVisit(vs: seq<Visit>, k: GroupKey, n: nat)
    requires n <= |vs| && GroupIntervals(vs, k, n) != []
    ensures exists j :: 0 <= j < n && vs[j].customer == Some(k.customer)
  {
    if KeyOf(vs[n - 1]) == Some(k) && Interval(vs, n - 1).Some? {
      assert vs[n - 1].customer == Some(k.customer);
    } else {
      assert GroupIntervals(vs, k, n) == GroupIntervals(vs, k, n - 1) + [];
      GroupIntervalsHaveVisit(vs, k, n - 1);
      var j :| 0 <= j < n - 1 && vs[j].customer == Some(k.customer);
      assert 0 <= j < n;
    }
  }

  /** Every reported row: the product is the query; 0 ≤ shortest ≤ mean ≤ longest with
      longest > 0; `latest` is the customer's last order date; the prediction is that date
      plus the mean gap, rounded down to a day. */
  lemma SummaryRowFacts(vs: seq<Visit>, product: string, s: Summary)
    requires s in Summaries(vs, product)
    ensures s.product == product
    ensures 0 <= s.shortest && s.shortest as real <= s.mean <= s.longest as real && s.longest > 0
    ensures s.latest <= s.predicted && s.predicted == s.latest + s.mean.Floor
    ensures exists j :: 0 <= j < |vs| && vs[j].customer == Some(s.customer) && vs[j].date == s.latest
    ensures forall j :: 0 <= j < |vs| && vs[j].customer == Some(s.customer) ==> vs[j].date <= s.latest
  {
    var keys := Filter(GroupKeys(vs, |vs|), HasIntervals(vs));
    var rows := MapSeq(keys, (k: GroupKey) => Summarise(vs, product, k));
    FilterMember(rows, NotAllZero, s);
    var m :| 0 <= m < |rows| && rows[m] == s;
    var k := keys[m];
    FilterMember(GroupKeys(vs, |vs|), HasIntervals(vs), k);
    var gaps := GroupIntervals(vs, k, |vs|);
    GroupIntervalsNonNegative(vs, k, |vs|);
    StatsOrdered(gaps);
    AllZeroIff(gaps);
    GroupIntervalsHaveVisit(vs, k, |vs|);
    LatestDateSpec(vs, k.customer);
  }

  /** A group is reported exactly when it has at least one interval and its longest gap
      is positive. */
  lemma ReportedIff(vs: seq<Visit>, product: string, k: GroupKey)
    requires exists i :: 0 <= i < |vs| && KeyOf(vs[i]) == Some(k)
    ensures Summarise(vs, product, k) in Summaries(vs, product) <==>
      GroupIntervals(vs, k, |vs|) != [] && Greatest(GroupIntervals(vs, k, |vs|)) > 0
  {
    var keys := Filter(GroupKeys(vs, |vs|), HasIntervals(vs));
    var f := (k: GroupKey) => Summarise(vs, product, k);
    var rows := MapSeq(keys, f);
    var gaps := GroupIntervals(vs, k, |vs|);
    FilterMember(GroupKeys(vs, |vs|), HasIntervals(vs), k);
    FilterMember(rows, NotAllZero, Summarise(vs, product, k));
    forall m | 0 <= m < |rows| && rows[m] == Summarise(vs, product, k) ensures gaps != [] {
      assert keys[m] == k;
      FilterMember(GroupKeys(vs, |vs|), HasIntervals(vs), keys[m]);
    }
    if gaps != [] {
      GroupIntervalsNonNegative(vs, k, |vs|);
      AllZeroIff(gaps);
      var m :| 0 <= m < |keys| && keys[m] == k;
      assert rows[m] == Summarise(vs, product, k);
    }
  }
}
