/** The fresh-fruit sales incentive of app009.py: a sales table is joined with a
    bonus table of (keyword, spec, stock rate, incremental rate) rules, every
    fresh-fruit sale whose product name contains a keyword is priced with the
    rule whose spec appears in its description (or the keyword's "其他" rule),
    customers who already bought the product in the 90 days before the bonus
    period earn the stock rate and the others the incremental rate, and the
    bonuses are summed per BD with a grand-total row. */
module FreshFruitBonus {
  import opened Common

  const FreshFruit: string := "鲜果"
  const OtherSpec: string := "其他"
  const TotalLabel: string := "总计"
  /** The baseline window is the 90 days before the bonus period. */
  const LookbackDays: int := 90

  const SalesColumns: seq<string> :=
    ["订单日期", "商品描述", "商品名称", "一级类目", "客户名称", "sku_id", "bd_name", "销量"]
  const RuleColumns: seq<string> := ["关键词", "规格", "存量奖金", "增量奖金"]

  /** A row of the sales table (原始数据表) whose order date parsed; dates are day numbers. */
  datatype Sale = Sale(date: int, desc: string, name: string, category: string,
                       customer: string, sku: string, bd: string, qty: real)

  /** A row of the sales table as read: the order date may fail to parse. */
  datatype RawSale = RawSale(date: Option<int>, desc: string, name: string, category: string,
                             customer: string, sku: string, bd: string, qty: real)

  /** A row of the bonus table (鲜果奖金表). */
  datatype Rule = Rule(keyword: string, spec: string, stockRate: real, incRate: real)

  /** A row of the cross join of sales and rules. */
  datatype Pair = Pair(sale: Sale, rule: Rule)

  /** A row of the analysis table: a sale with the rule that prices it. `specClean`
      is the cleaned spec of the rule the sale was first paired with, and
      `specMatched` says whether that spec occurred in the description (a fallback
      row prices the sale with the keyword's "其他" rule instead). */
  datatype Candidate = Candidate(sale: Sale, rule: Rule, specClean: string, specMatched: bool)

  /** 存量 (the customer already bought this product in the baseline window) or 增量. */
  datatype Kind = Stock | Incremental

  /** A bonus-period row once classified and priced. */
  datatype Line = Line(row: Candidate, kind: Kind, amount: real)

  /** The grouping columns of the detail table. */
  datatype DetailKey = DetailKey(bd: string, customer: string, name: string, keyword: string,
                                 spec: string, desc: string, kind: Kind)

  datatype DetailLine = DetailLine(key: DetailKey, qty: real, amount: real)

  /** A row of the per-BD summary (or the total row, whose `bd` is 总计). */
  datatype BdSummary = BdSummary(bd: string, stock: real, incremental: real, total: real)

  datatype Report = Report(detail: seq<DetailLine>, summary: seq<BdSummary>, total: BdSummary)

  datatype Outcome =
    | LoadFailed          // a file had the wrong extension or lacked a required column
    | PeriodRejected      // the end date is not after the start date
    | Crashed             // a raising row-wise apply ran on an empty frame (ValueError, unhandled)
    | NoMatches           // the analysis table is empty
    | Analysed(report: Report)

  // ---------------------------------------------------------------------------
  // Loading (load_data)
  // ---------------------------------------------------------------------------

  /** load_data reads .csv, .xls and .xlsx files and rejects every other name. */
  predicate Readable(fileName: string)
  {
    EndsWith(fileName, ".csv") || EndsWith(fileName, ".xls") || EndsWith(fileName, ".xlsx")
  }

  /** `sale` is `row` with its parsed order date. */
  predicate ParsedFrom(row: RawSale, sale: Sale)
  {
    row.date == Some(sale.date) && row.desc == sale.desc && row.name == sale.name
    && row.category == sale.category && row.customer == sale.customer && row.sku == sale.sku
    && row.bd == sale.bd && row.qty == sale.qty
  }

  predicate HasDate(row: RawSale)
  {
    row.date.Some?
  }

  /** Rows whose order date did not parse are dropped; the others keep their order
      and carry their parsed date. */
  function DropUnparsedDates(rows: seq<RawSale>): (r: seq<Sale>)
    ensures |r| == |Filter(rows, HasDate)|
    ensures forall k :: 0 <= k < |r| ==> ParsedFrom(Filter(rows, HasDate)[k], r[k])
  {
    if rows == [] then []
    else
      var rest := DropUnparsedDates(rows[1..]);
      var row := rows[0];
      if row.date.Some?
      then [Sale(row.date.value, row.desc, row.name, row.category, row.customer, row.sku, row.bd, row.qty)] + rest
      else rest
  }

  /** load_data for the sales table: None when the file cannot be read or lacks a
      required column, otherwise the rows with a parsable order date. */
  function LoadSales(fileName: string, columns: seq<string>, rows: seq<RawSale>): (r: Option<seq<Sale>>)
    ensures r.None? <==> !Readable(fileName) || !HasColumns(SalesColumns, columns)
    ensures r.Some? ==> r.value == DropUnparsedDates(rows)
  {
    if !Readable(fileName) then None
    else if MissingColumns(SalesColumns, columns) != [] then None
    else Some(DropUnparsedDates(rows))
  }

  /** load_data for the bonus table: None when the file cannot be read or lacks a
      required column, otherwise its rows. */
  function LoadRules(fileName: string, columns: seq<string>, rules: seq<Rule>): (r: Option<seq<Rule>>)
    ensures r.None? <==> !Readable(fileName) || !HasColumns(RuleColumns, columns)
    ensures r.Some? ==> r.value == rules
  {
    if !Readable(fileName) then None
    else if MissingColumns(RuleColumns, columns) != [] then None
    else Some(rules)
  }

  // ---------------------------------------------------------------------------
  // Matching sales to rules
  // ---------------------------------------------------------------------------

  function PairWith(s: Sale): Rule -> Pair
  {
    (r: Rule) => Pair(s, r)
  }

  /** The cross join of the two tables, sale-major. */
  function CrossJoin(sales: seq<Sale>, rules: seq<Rule>): seq<Pair>
  {
    if sales == [] then [] else MapSeq(rules, PairWith(sales[0])) + CrossJoin(sales[1..], rules)
  }

  /** The rule's keyword occurs in the product name. */
  predicate KeywordHit(p: Pair)
  {
    IsSubstring(p.rule.keyword, p.sale.name)
  }

  predicate IsFreshFruit(p: Pair)
  {
    p.sale.category == FreshFruit
  }

  /** The rule's spec, whitespace removed, occurs in the description, whitespace removed. */
  predicate SpecHit(p: Pair)
  {
    IsSubstring(StripWhitespace(p.rule.spec), StripWhitespace(p.sale.desc))
  }

  predicate SpecMissed(p: Pair)
  {
    !SpecHit(p)
  }

  predicate IsOtherRule(r: Rule)
  {
    r.spec == OtherSpec
  }

  /** The de-duplicated cross join narrowed to keyword hits on fresh fruit. */
  function FreshPairs(sales: seq<Sale>, rules: seq<Rule>): seq<Pair>
  {
    var merged := Distinct(CrossJoin(sales, Distinct(rules)));
    Distinct(Filter(Distinct(Filter(merged, KeywordHit)), IsFreshFruit))
  }

  function AsMatched(p: Pair): Candidate
  {
    Candidate(p.sale, p.rule, StripWhitespace(p.rule.spec), true)
  }

  /** `c` is the row the left merge of unmatched pair `u` with "其他" rule `o` produces. */
  predicate FallsBackTo(u: Pair, o: Rule, c: Candidate)
  {
    o.keyword == u.rule.keyword && c == Candidate(u.sale, o, StripWhitespace(u.rule.spec), false)
  }

  function SameKeyword(keyword: string): Rule -> bool
  {
    (o: Rule) => o.keyword == keyword
  }

  function FallbackWith(u: Pair): Rule -> Candidate
  {
    (o: Rule) => Candidate(u.sale, o, StripWhitespace(u.rule.spec), false)
  }

  /** The unmatched pairs merged with the "其他" rules on the keyword; pairs without
      such a rule get no row (the merge leaves their spec empty and dropna removes them). */
  function Fallback(unmatched: seq<Pair>, others: seq<Rule>): seq<Candidate>
  {
    if unmatched == [] then []
    else
      var u := unmatched[0];
      MapSeq(Filter(others, SameKeyword(u.rule.keyword)), FallbackWith(u)) + Fallback(unmatched[1..], others)
  }

  /** The analysis table: spec-matched rows first, then the fallback rows (only when
      the bonus table has a "其他" rule at all). */
  function AnalysisRows(sales: seq<Sale>, rules: seq<Rule>): seq<Candidate>
  {
    var fruit := FreshPairs(sales, rules);
    var matched := MapSeq(Distinct(Filter(fruit, SpecHit)), AsMatched);
    var others := Filter(Distinct(rules), IsOtherRule);
    if others == [] then matched
    else matched + Distinct(Fallback(Distinct(Filter(fruit, SpecMissed)), others))
  }

  // ---------------------------------------------------------------------------
  // Windows, classification and pricing
  // ---------------------------------------------------------------------------

  /** The bonus period, both ends included. */
  function InBonusWindow(start: int, end: int): Candidate -> bool
  {
    (c: Candidate) => start <= c.sale.date <= end
  }

  /** The 90 days before the bonus period, both ends included. */
  function InBaseWindow(start: int): Candidate -> bool
  {
    (c: Candidate) => start - LookbackDays <= c.sale.date <= start - 1
  }

  /** 唯一标识: customer, keyword and product name joined by "_". */
  function IdentityKey(c: Candidate): string
  {
    c.sale.customer + "_" + c.rule.keyword + "_" + c.sale.name
  }

  /** The analysis rows of a window, de-duplicated, then the first row of every identity key. */
  function WindowRows(analysis: seq<Candidate>, window: Candidate -> bool): seq<Candidate>
  {
    DedupBy(Distinct(Filter(analysis, window)), IdentityKey)
  }

  function ExistingKeys(base: seq<Candidate>): set<string>
  {
    set c | c in base :: IdentityKey(c)
  }

  function RateFor(c: Candidate, kind: Kind): real
  {
    if kind == Stock then c.rule.stockRate else c.rule.incRate
  }

  /** `round(销量 × rate, 2)`. */
  function BonusAmount(qty: real, rate: real): real
  {
    Round2(qty * rate)
  }

  /** Stock when the identity key was seen in the baseline; the bonus is quantity
      times the applicable rate, rounded to cents. */
  function ClassifyRow(existing: set<string>, c: Candidate): Line
  {
    var kind := if IdentityKey(c) in existing then Stock else Incremental;
    Line(c, kind, BonusAmount(c.sale.qty, RateFor(c, kind)))
  }

  function Classify(existing: set<string>): Candidate -> Line
  {
    (c: Candidate) => ClassifyRow(existing, c)
  }

  /** The bonus-period rows, one per identity key. */
  function BonusRows(analysis: seq<Candidate>, start: int, end: int): seq<Candidate>
  {
    WindowRows(analysis, InBonusWindow(start, end))
  }

  /** The baseline rows, one per identity key. */
  function BaseRows(analysis: seq<Candidate>, start: int): seq<Candidate>
  {
    WindowRows(analysis, InBaseWindow(start))
  }

  function BonusLines(analysis: seq<Candidate>, start: int, end: int): seq<Line>
  {
    MapSeq(BonusRows(analysis, start, end), Classify(ExistingKeys(BaseRows(analysis, start))))
  }

  // ---------------------------------------------------------------------------
  // Detail and summary tables
  // ---------------------------------------------------------------------------

  function DetailKeyOf(l: Line): DetailKey
  {
    DetailKey(l.row.sale.bd, l.row.sale.customer, l.row.sale.name, l.row.rule.keyword,
              l.row.rule.spec, l.row.sale.desc, l.kind)
  }

  function QtyOf(l: Line): real { l.row.sale.qty }

  function AmountOf(l: Line): real { l.amount }

  /** One group of the detail groupby: quantities and bonuses summed, bonus rounded. */
  function GroupTotal(lines: seq<Line>): DetailKey -> DetailLine
  {
    (g: DetailKey) => DetailLine(g, SumWithKey(lines, DetailKeyOf, g, QtyOf), Round2(SumWithKey(lines, DetailKeyOf, g, AmountOf)))
  }

  predicate Earns(d: DetailLine)
  {
    d.amount > 0.0
  }

  /** The detail table: one row per group, groups whose bonus is not positive dropped. */
  function Detail(lines: seq<Line>): seq<DetailLine>
  {
    Filter(MapSeq(Distinct(MapSeq(lines, DetailKeyOf)), GroupTotal(lines)), Earns)
  }

  function BdOf(d: DetailLine): string { d.key.bd }

  function DetailAmount(d: DetailLine): real { d.amount }

  /** The detail bonus when the row is stock, else nothing. */
  function StockAmount(d: DetailLine): real { if d.key.kind == Stock then d.amount else 0.0 }

  function IncrementalAmount(d: DetailLine): real { if d.key.kind == Incremental then d.amount else 0.0 }

  /** A summary row from its two sums: each rounded, and the rounded sum of the two. */
  function RoundedRow(bd: string, stock: real, incremental: real): BdSummary
  {
    var s := Round2(stock);
    var i := Round2(incremental);
    BdSummary(bd, s, i, Round2(s + i))
  }

  /** A BD's summary row: the masked sums of its stock and of its incremental bonuses. */
  function BdRow(detail: seq<DetailLine>, b: string): BdSummary
  {
    RoundedRow(b, SumWithKey(detail, BdOf, b, StockAmount), SumWithKey(detail, BdOf, b, IncrementalAmount))
  }

  function BdTotals(detail: seq<DetailLine>): string -> BdSummary
  {
    (b: string) => BdRow(detail, b)
  }

  function Summary(detail: seq<DetailLine>): seq<BdSummary>
  {
    MapSeq(Distinct(MapSeq(detail, BdOf)), BdTotals(detail))
  }

  function StockCol(s: BdSummary): real { s.stock }

  function IncrementalCol(s: BdSummary): real { s.incremental }

  function TotalCol(s: BdSummary): real { s.total }

  /** The 总计 row: each column sum rounded, and the rounded sum of the two. */
  function TotalRow(summary: seq<BdSummary>): BdSummary
  {
    RoundedRow(TotalLabel, SumOf(summary, StockCol), SumOf(summary, IncrementalCol))
  }

  function BuildReport(lines: seq<Line>): Report
  {
    var detail := Detail(lines);
    var summary := Summary(detail);
    Report(detail, summary, TotalRow(summary))
  }

  /** The analysis button: the period check, the matching, and the report. A row-wise
      apply over an empty frame first calls its function on a row of NaN; when that
      raises, apply returns a frame rather than a column, and assigning it to one column
      raises. The keyword and spec matches do raise on NaN, so the page crashes when no
      pair survives the keyword and 鲜果 filters (an empty cross join included). The
      bonus-amount lambda does not, so an empty bonus period yields an empty report. */
  function Analyze(sales: seq<Sale>, rules: seq<Rule>, start: int, end: int): (r: Outcome)
    ensures r == PeriodRejected <==> start >= end
    ensures r == Crashed <==> start < end && FreshPairs(sales, rules) == []
    ensures r == NoMatches <==> start < end && FreshPairs(sales, rules) != [] && AnalysisRows(sales, rules) == []
    ensures r.Analysed? <==> start < end && AnalysisRows(sales, rules) != []
    ensures r.Analysed? ==> r.report == BuildReport(BonusLines(AnalysisRows(sales, rules), start, end))
    ensures r != LoadFailed
  {
    if start >= end then PeriodRejected
    else if FreshPairs(sales, rules) == [] then Crashed
    else
      var analysis := AnalysisRows(sales, rules);
      if analysis == [] then NoMatches
      else Analysed(BuildReport(BonusLines(analysis, start, end)))
  }

  /** main: load both tables, then analyse. */
  function Run(salesFile: string, salesColumns: seq<string>, rows: seq<RawSale>,
               rulesFile: string, ruleColumns: seq<string>, rules: seq<Rule>,
               start: int, end: int): (r: Outcome)
    ensures r == LoadFailed <==> LoadSales(salesFile, salesColumns, rows).None?
                                 || LoadRules(rulesFile, ruleColumns, rules).None?
    ensures r == PeriodRejected <==> r != LoadFailed && start >= end
  {
    var sales := LoadSales(salesFile, salesColumns, rows);
    var table := LoadRules(rulesFile, ruleColumns, rules);
    if sales.None? || table.None? then LoadFailed
    else Analyze(sales.value, table.value, start, end)
  }

  // ---------------------------------------------------------------------------
  // Matching: which rows reach the analysis table
  // ---------------------------------------------------------------------------

  lemma {:induction false} CrossJoinMember(sales: seq<Sale>, rules: seq<Rule>, p: Pair)
    ensures p in CrossJoin(sales, rules) <==> p.sale in sales && p.rule in rules
  {
    if sales != [] {
      CrossJoinMember(sales[1..], rules, p);
      var head := MapSeq(rules, PairWith(sales[0]));
      assert p in head <==> p.sale == sales[0] && p.rule in rules by {
        if p.sale == sales[0] && p.rule in rules {
          var k :| 0 <= k < |rules| && rules[k] == p.rule;
          assert head[k] == p;
        }
      }
      assert sales == [sales[0]] + sales[1..];
    }
  }

  /** A (sale, rule) pair survives the keyword and category filters exactly when the
      keyword occurs in the product name and the sale is fresh fruit. */
  lemma FreshPairMember(sales: seq<Sale>, rules: seq<Rule>, p: Pair)
    ensures p in FreshPairs(sales, rules) <==>
              p.sale in sales && p.rule in rules && KeywordHit(p) && IsFreshFruit(p)
  {
    DistinctSpec(rules);
    CrossJoinMember(sales, Distinct(rules), p);
    var joined := CrossJoin(sales, Distinct(rules));
    DistinctSpec(joined);
    var merged := Distinct(joined);
    FilterMember(merged, KeywordHit, p);
    var hits := Filter(merged, KeywordHit);
    DistinctSpec(hits);
    FilterMember(Distinct(hits), IsFreshFruit, p);
    DistinctSpec(Filter(Distinct(hits), IsFreshFruit));
  }

  lemma {:induction false} FallbackMember(unmatched: seq<Pair>, others: seq<Rule>, c: Candidate)
    ensures c in Fallback(unmatched, others) <==>
              c.rule in others && exists u :: u in unmatched && FallsBackTo(u, c.rule, c)
  {
    if unmatched != [] {
      var u := unmatched[0];
      FallbackMember(unmatched[1..], others, c);
      var picked := Filter(others, SameKeyword(u.rule.keyword));
      var head := MapSeq(picked, FallbackWith(u));
      assert c in head <==> c.rule in others && FallsBackTo(u, c.rule, c) by {
        if c in head {
          var k :| 0 <= k < |head| && head[k] == c;
          FilterMember(others, SameKeyword(u.rule.keyword), picked[k]);
        }
        if c.rule in others && FallsBackTo(u, c.rule, c) {
          FilterMember(others, SameKeyword(u.rule.keyword), c.rule);
          var k :| 0 <= k < |picked| && picked[k] == c.rule;
          assert head[k] == c;
        }
      }
      assert unmatched == [u] + unmatched[1..];
      if c.rule in others && exists v :: v in unmatched && FallsBackTo(v, c.rule, c) {
        var v :| v in unmatched && FallsBackTo(v, c.rule, c);
        assert v == u || v in unmatched[1..];
      }
    }
  }

  /** A spec-matched analysis row: the sale and its own rule, the keyword in the
      name, fresh fruit, and the cleaned spec in the cleaned description. */
  predicate MatchedRow(sales: seq<Sale>, rules: seq<Rule>, c: Candidate)
  {
    var p := Pair(c.sale, c.rule);
    c.specMatched && c.sale in sales && c.rule in rules && KeywordHit(p) && IsFreshFruit(p)
    && SpecHit(p) && c.specClean == StripWhitespace(c.rule.spec)
  }

  /** Rule `r` is a rule the sale of `c` was paired with whose spec did not match,
      and which `c` replaces by the "其他" rule of the same keyword. */
  predicate ReplacesRule(c: Candidate, r: Rule)
  {
    var p := Pair(c.sale, r);
    r.keyword == c.rule.keyword && KeywordHit(p) && SpecMissed(p) && c.specClean == StripWhitespace(r.spec)
  }

  /** A fallback analysis row: a fresh-fruit sale priced by a "其他" rule, for every
      rule of that keyword whose spec did not match the sale. */
  predicate FallbackRow(sales: seq<Sale>, rules: seq<Rule>, c: Candidate)
  {
    !c.specMatched && c.sale in sales && c.sale.category == FreshFruit && c.rule in rules
    && IsOtherRule(c.rule) && exists r :: r in rules && ReplacesRule(c, r)
  }

  /** The spec-matched part of the analysis table holds exactly the spec-matched rows. */
  lemma MatchedMember(sales: seq<Sale>, rules: seq<Rule>, c: Candidate)
    ensures c in MapSeq(Distinct(Filter(FreshPairs(sales, rules), SpecHit)), AsMatched) <==> MatchedRow(sales, rules, c)
  {
    var fruit := FreshPairs(sales, rules);
    var hits := Filter(fruit, SpecHit);
    var matched := MapSeq(Distinct(hits), AsMatched);
    var p := Pair(c.sale, c.rule);
    DistinctSpec(hits);
    FilterMember(fruit, SpecHit, p);
    FreshPairMember(sales, rules, p);
    if c in matched {
      var k :| 0 <= k < |matched| && matched[k] == c;
      var q := Distinct(hits)[k];
      assert q == p;
    }
    if MatchedRow(sales, rules, c) {
      var k :| 0 <= k < |Distinct(hits)| && Distinct(hits)[k] == p;
      assert matched[k] == c;
    }
  }

  /** With "其他" rules present, the fallback part of the analysis table holds exactly the
      fallback rows. */
  lemma FallbackPartMember(sales: seq<Sale>, rules: seq<Rule>, c: Candidate)
    requires Filter(Distinct(rules), IsOtherRule) != []
    ensures c in Distinct(Fallback(Distinct(Filter(FreshPairs(sales, rules), SpecMissed)), Filter(Distinct(rules), IsOtherRule)))
      <==> FallbackRow(sales, rules, c)
  {
    var fruit := FreshPairs(sales, rules);
    var others := Filter(Distinct(rules), IsOtherRule);
    var misses := Distinct(Filter(fruit, SpecMissed));
    DistinctSpec(rules);
    FilterMember(Distinct(rules), IsOtherRule, c.rule);
    var fb := Fallback(misses, others);
    DistinctSpec(fb);
    FallbackMember(misses, others, c);
    DistinctSpec(Filter(fruit, SpecMissed));
    if c in fb {
      var u :| u in misses && FallsBackTo(u, c.rule, c);
      FilterMember(fruit, SpecMissed, u);
      FreshPairMember(sales, rules, u);
      assert ReplacesRule(c, u.rule);
    }
    if FallbackRow(sales, rules, c) {
      var r :| r in rules && ReplacesRule(c, r);
      var u := Pair(c.sale, r);
      FreshPairMember(sales, rules, u);
      FilterMember(fruit, SpecMissed, u);
      assert FallsBackTo(u, c.rule, c);
    }
  }

  /** The analysis table holds exactly the spec-matched rows and the fallback rows;
      in particular a keyword without a "其他" rule contributes no fallback row. */
  lemma AnalysisMember(sales: seq<Sale>, rules: seq<Rule>, c: Candidate)
    ensures c in AnalysisRows(sales, rules) <==> MatchedRow(sales, rules, c) || FallbackRow(sales, rules, c)
  {
    var others := Filter(Distinct(rules), IsOtherRule);
    MatchedMember(sales, rules, c);
    if others != [] {
      FallbackPartMember(sales, rules, c);
    } else {
      DistinctSpec(rules);
      FilterMember(Distinct(rules), IsOtherRule, c.rule);
    }
  }

  // ---------------------------------------------------------------------------
  // Windows and classification
  // ---------------------------------------------------------------------------

  /** The rows a window keeps are analysis rows inside it. */
  lemma WindowRowsSound(analysis: seq<Candidate>, window: Candidate -> bool)
    ensures forall c :: c in WindowRows(analysis, window) ==> c in analysis && window(c)
  {
    KeepFirstOfMask(analysis, window, IdentityKey);
  }

  /** A window keeps at most one row per identity key. */
  lemma WindowRowsUniqueKeys(analysis: seq<Candidate>, window: Candidate -> bool)
    ensures forall i, j :: 0 <= i < j < |WindowRows(analysis, window)| ==>
              IdentityKey(WindowRows(analysis, window)[i]) != IdentityKey(WindowRows(analysis, window)[j])
  {
    KeepFirstOfMask(analysis, window, IdentityKey);
  }

  /** Every identity key of an analysis row inside the window is represented. */
  lemma WindowRowsCover(analysis: seq<Candidate>, window: Candidate -> bool, c: Candidate)
    requires c in analysis && window(c)
    ensures exists y :: y in WindowRows(analysis, window) && IdentityKey(y) == IdentityKey(c)
  {
    KeepFirstOfMask(analysis, window, IdentityKey);
  }

  /** The bonus window and the baseline window never share a row: a sale dated on
      the first bonus day is not baseline evidence. */
  lemma WindowsDisjoint(analysis: seq<Candidate>, start: int, end: int)
    ensures forall c :: c in WindowRows(analysis, InBonusWindow(start, end)) ==>
              c !in WindowRows(analysis, InBaseWindow(start))
  {
    WindowRowsSound(analysis, InBonusWindow(start, end));
    WindowRowsSound(analysis, InBaseWindow(start));
  }

  /** An identity key was seen in the baseline exactly when some analysis row of the
      baseline window carries it. */
  lemma ExistingKeysIff(analysis: seq<Candidate>, start: int, key: string)
    ensures key in ExistingKeys(BaseRows(analysis, start)) <==>
              exists c :: c in analysis && start - LookbackDays <= c.sale.date <= start - 1 && IdentityKey(c) == key
  {
    var base := BaseRows(analysis, start);
    if key in ExistingKeys(base) {
      var c :| c in base && IdentityKey(c) == key;
      WindowRowsSound(analysis, InBaseWindow(start));
      assert InBaseWindow(start)(c);
    }
    if exists c :: c in analysis && start - LookbackDays <= c.sale.date <= start - 1 && IdentityKey(c) == key {
      var c :| c in analysis && start - LookbackDays <= c.sale.date <= start - 1 && IdentityKey(c) == key;
      assert InBaseWindow(start)(c);
      WindowRowsCover(analysis, InBaseWindow(start), c);
      var y :| y in base && IdentityKey(y) == IdentityKey(c);
    }
  }

  lemma BonusRowsInWindow(analysis: seq<Candidate>, start: int, end: int)
    ensures forall c :: c in BonusRows(analysis, start, end) ==> c in analysis && start <= c.sale.date <= end
  {
    WindowRowsSound(analysis, InBonusWindow(start, end));
  }

  /** Each bonus line is an analysis row of the bonus period; it is 存量 exactly when
      some analysis row of the baseline window has the same identity key, and its
      amount is the quantity times the matching rate, rounded to cents. */
  lemma ClassificationIff(analysis: seq<Candidate>, start: int, end: int, i: nat)
    requires i < |BonusLines(analysis, start, end)|
    ensures var l := BonusLines(analysis, start, end)[i];
      && l.row in analysis && start <= l.row.sale.date <= end
      && (l.kind == Stock <==>
            exists c :: c in analysis && start - LookbackDays <= c.sale.date <= start - 1
                        && IdentityKey(c) == IdentityKey(l.row))
      && l.amount == BonusAmount(l.row.sale.qty, RateFor(l.row, l.kind))
  {
    var bonus := BonusRows(analysis, start, end);
    var l := BonusLines(analysis, start, end)[i];
    assert l == ClassifyRow(ExistingKeys(BaseRows(analysis, start)), bonus[i]);
    BonusRowsInWindow(analysis, start, end);
    assert bonus[i] in bonus;
    ExistingKeysIff(analysis, start, IdentityKey(bonus[i]));
  }

  /** The bonus lines carry one row per identity key, and every identity key of the
      bonus period has a line: later rows with the same key are discarded. */
  lemma BonusKeysUnique(analysis: seq<Candidate>, start: int, end: int)
    ensures var lines := BonusLines(analysis, start, end);
      forall i, j :: 0 <= i < j < |lines| ==> IdentityKey(lines[i].row) != IdentityKey(lines[j].row)
    ensures var lines := BonusLines(analysis, start, end);
      forall c :: c in analysis && start <= c.sale.date <= end ==>
        exists k :: 0 <= k < |lines| && IdentityKey(lines[k].row) == IdentityKey(c)
  {
    var bonus := BonusRows(analysis, start, end);
    WindowRowsUniqueKeys(analysis, InBonusWindow(start, end));
    var lines := BonusLines(analysis, start, end);
    assert forall k :: 0 <= k < |lines| ==> lines[k].row == bonus[k];
    forall c | c in analysis && start <= c.sale.date <= end
      ensures exists k :: 0 <= k < |lines| && IdentityKey(lines[k].row) == IdentityKey(c)
    {
      assert InBonusWindow(start, end)(c);
      WindowRowsCover(analysis, InBonusWindow(start, end), c);
      var y :| y in bonus && IdentityKey(y) == IdentityKey(c);
      var k :| 0 <= k < |bonus| && bonus[k] == y;
      assert lines[k].row == y;
    }
  }

  predicate IsFallback(c: Candidate)
  {
    !c.specMatched
  }

  lemma FallbackRowsAreFallback(unmatched: seq<Pair>, others: seq<Rule>)
    ensures forall k :: 0 <= k < |Distinct(Fallback(unmatched, others))| ==>
              IsFallback(Distinct(Fallback(unmatched, others))[k])
  {
    var fb := Fallback(unmatched, others);
    DistinctSpec(fb);
    forall k | 0 <= k < |Distinct(fb)| ensures IsFallback(Distinct(fb)[k]) {
      FallbackMember(unmatched, others, Distinct(fb)[k]);
    }
  }

  /** In the analysis table every fallback row comes after every spec-matched row. */
  lemma AnalysisMatchedFirst(sales: seq<Sale>, rules: seq<Rule>)
    ensures StaysTrue(AnalysisRows(sales, rules), IsFallback)
  {
    var fruit := FreshPairs(sales, rules);
    var matched := MapSeq(Distinct(Filter(fruit, SpecHit)), AsMatched);
    var others := Filter(Distinct(rules), IsOtherRule);
    assert forall k :: 0 <= k < |matched| ==> !IsFallback(matched[k]);
    if others != [] {
      var misses := Distinct(Filter(fruit, SpecMissed));
      FallbackRowsAreFallback(misses, others);
      StaysTrueAppend(matched, Distinct(Fallback(misses, others)), IsFallback);
    }
  }

  /** In an analysis table whose fallback rows come last, the bonus line kept for an
      identity key is spec-matched whenever the key has a spec-matched row in the period. */
  lemma {:induction false} KeptRowPrefersMatched(analysis: seq<Candidate>, start: int, end: int, i: nat, c: Candidate)
    requires StaysTrue(analysis, IsFallback)
    requires i < |BonusLines(analysis, start, end)|
    requires c in analysis && start <= c.sale.date <= end && c.specMatched
    requires IdentityKey(c) == IdentityKey(BonusLines(analysis, start, end)[i].row)
    ensures BonusLines(analysis, start, end)[i].row.specMatched
  {
    var window := InBonusWindow(start, end);
    var inside := Filter(analysis, window);
    var s := Distinct(inside);
    StaysTrueFilter(analysis, IsFallback, window);
    StaysTrueDedup(inside, Identity<Candidate>, {}, IsFallback);
    assert s == DedupFrom(inside, Identity<Candidate>, {});
    var first := DedupFromSoundAt(s, IdentityKey, {}, i);
    var l := BonusLines(analysis, start, end)[i];
    assert l.row == s[first];
    FilterMember(analysis, window, c);
    DistinctSpec(inside);
    var j :| 0 <= j < |s| && s[j] == c;
    assert first <= j;
    var kept := s[first];
    assert first < j ==> (IsFallback(kept) ==> IsFallback(c));
  }

  /** When a bonus-period identity key has a spec-matched row, the kept line for that
      key is a spec-matched row: the specific rule wins over the "其他" fallback. */
  lemma SpecMatchedWins(sales: seq<Sale>, rules: seq<Rule>, start: int, end: int, i: nat, c: Candidate)
    requires i < |BonusLines(AnalysisRows(sales, rules), start, end)|
    requires c in AnalysisRows(sales, rules) && start <= c.sale.date <= end && c.specMatched
    requires IdentityKey(c) == IdentityKey(BonusLines(AnalysisRows(sales, rules), start, end)[i].row)
    ensures BonusLines(AnalysisRows(sales, rules), start, end)[i].row.specMatched
  {
    AnalysisMatchedFirst(sales, rules);
    KeptRowPrefersMatched(AnalysisRows(sales, rules), start, end, i, c);
  }

  // ---------------------------------------------------------------------------
  // Detail table
  // ---------------------------------------------------------------------------

  /** No two lines share an identity key. */
  predicate UniqueIdentity(lines: seq<Line>)
  {
    forall i, j :: 0 <= i < j < |lines| ==> IdentityKey(lines[i].row) != IdentityKey(lines[j].row)
  }

  predicate CentAmounts(lines: seq<Line>)
  {
    forall i :: 0 <= i < |lines| ==> IsCents(lines[i].amount)
  }

  /** The detail row a single line produces. */
  function DetailOf(l: Line): DetailLine
  {
    DetailLine(DetailKeyOf(l), l.row.sale.qty, l.amount)
  }

  /** With one line per identity key every detail group holds a single line, so the
      group's sums are that line's quantity and bonus. */
  lemma {:induction false} GroupOfOneLine(lines: seq<Line>, i: nat)
    requires UniqueIdentity(lines) && CentAmounts(lines)
    requires i < |lines|
    ensures GroupTotal(lines)(DetailKeyOf(lines[i])) == DetailOf(lines[i])
  {
    var g := DetailKeyOf(lines[i]);
    forall j | 0 <= j < |lines| && j != i ensures DetailKeyOf(lines[j]) != g {
      assert IdentityKey(lines[j].row) != IdentityKey(lines[i].row);
    }
    SumWithKeySingle(lines, DetailKeyOf, g, QtyOf, i);
    SumWithKeySingle(lines, DetailKeyOf, g, AmountOf, i);
    Round2Spec(lines[i].amount);
  }

  /** With one line per identity key the detail table is the lines with a positive
      bonus, each as its own row: grouping merges nothing and zero bonuses are dropped. */
  lemma DetailIsPositiveLines(lines: seq<Line>)
    requires UniqueIdentity(lines) && CentAmounts(lines)
    ensures forall d :: d in Detail(lines) ==>
              d.amount > 0.0 && exists i :: 0 <= i < |lines| && d == DetailOf(lines[i])
    ensures forall i :: 0 <= i < |lines| && lines[i].amount > 0.0 ==> DetailOf(lines[i]) in Detail(lines)
  {
    var keys := MapSeq(lines, DetailKeyOf);
    var groups := Distinct(keys);
    var rows := MapSeq(groups, GroupTotal(lines));
    DistinctSpec(keys);
    forall d | d in Detail(lines)
      ensures d.amount > 0.0 && exists i :: 0 <= i < |lines| && d == DetailOf(lines[i])
    {
      FilterMember(rows, Earns, d);
      var k :| 0 <= k < |rows| && rows[k] == d;
      assert groups[k] in keys;
      var i :| 0 <= i < |keys| && keys[i] == groups[k];
      GroupOfOneLine(lines, i);
    }
    forall i | 0 <= i < |lines| && lines[i].amount > 0.0 ensures DetailOf(lines[i]) in Detail(lines) {
      assert keys[i] in keys;
      var k :| 0 <= k < |groups| && groups[k] == keys[i];
      GroupOfOneLine(lines, i);
      assert rows[k] == DetailOf(lines[i]);
      FilterMember(rows, Earns, DetailOf(lines[i]));
    }
  }

  /** The bonus lines satisfy what the detail table needs: one per identity key, and
      every bonus a whole number of cents. */
  lemma BonusLinesShape(analysis: seq<Candidate>, start: int, end: int)
    ensures UniqueIdentity(BonusLines(analysis, start, end))
    ensures CentAmounts(BonusLines(analysis, start, end))
  {
    BonusKeysUnique(analysis, start, end);
    var lines := BonusLines(analysis, start, end);
    forall i | 0 <= i < |lines| ensures IsCents(lines[i].amount) {
      var l := lines[i];
      Round2Spec(l.row.sale.qty * RateFor(l.row, l.kind));
      ClassificationIff(analysis, start, end, i);
    }
  }

  // ---------------------------------------------------------------------------
  // Summary and total row
  // ---------------------------------------------------------------------------

  lemma DetailCents(lines: seq<Line>)
    ensures forall d :: d in Detail(lines) ==> IsCents(d.amount)
  {
    var rows := MapSeq(Distinct(MapSeq(lines, DetailKeyOf)), GroupTotal(lines));
    forall d | d in Detail(lines) ensures IsCents(d.amount) {
      FilterMember(rows, Earns, d);
      var k :| 0 <= k < |rows| && rows[k] == d;
      Round2Spec(SumWithKey(lines, DetailKeyOf, Distinct(MapSeq(lines, DetailKeyOf))[k], AmountOf));
    }
  }

  /** Rounding whole-cent sums changes nothing, and their total is exact. */
  lemma RoundedRowExact(bd: string, stock: real, incremental: real)
    requires IsCents(stock) && IsCents(incremental)
    ensures RoundedRow(bd, stock, incremental) == BdSummary(bd, stock, incremental, stock + incremental)
  {
    Round2Spec(stock);
    Round2Spec(incremental);
    CentsAdd(stock, incremental);
    Round2Spec(stock + incremental);
  }

  /** A BD's row is exact: its two sums need no rounding and its total is their sum. */
  lemma BdRowExact(detail: seq<DetailLine>, b: string)
    requires forall d :: d in detail ==> IsCents(d.amount)
    ensures BdRow(detail, b) == BdSummary(b, SumWithKey(detail, BdOf, b, StockAmount),
                                          SumWithKey(detail, BdOf, b, IncrementalAmount),
                                          SumWithKey(detail, BdOf, b, StockAmount)
                                          + SumWithKey(detail, BdOf, b, IncrementalAmount))
  {
    assert IsCents(0.0);
    SumWithKeyCents(detail, BdOf, b, StockAmount);
    SumWithKeyCents(detail, BdOf, b, IncrementalAmount);
    RoundedRowExact(b, SumWithKey(detail, BdOf, b, StockAmount), SumWithKey(detail, BdOf, b, IncrementalAmount));
  }

  lemma {:induction false} SummaryColumnSums(detail: seq<DetailLine>, bds: seq<string>)
    requires forall d :: d in detail ==> IsCents(d.amount)
    ensures SumOf(MapSeq(bds, BdTotals(detail)), StockCol) == SumOverKeys(detail, BdOf, bds, StockAmount)
    ensures SumOf(MapSeq(bds, BdTotals(detail)), IncrementalCol) == SumOverKeys(detail, BdOf, bds, IncrementalAmount)
  {
    if bds != [] {
      var rows := MapSeq(bds, BdTotals(detail));
      assert rows[1..] == MapSeq(bds[1..], BdTotals(detail));
      SummaryColumnSums(detail, bds[1..]);
      BdRowExact(detail, bds[0]);
    }
  }

  /** Each BD row holds the exact sums of that BD's detail bonuses, 共计 being 存量 plus 增量. */
  lemma SummaryExact(lines: seq<Line>)
    ensures var rep := BuildReport(lines);
      forall k :: 0 <= k < |rep.summary| ==>
        rep.summary[k].stock == SumWithKey(rep.detail, BdOf, rep.summary[k].bd, StockAmount)
        && rep.summary[k].incremental == SumWithKey(rep.detail, BdOf, rep.summary[k].bd, IncrementalAmount)
        && rep.summary[k].total == rep.summary[k].stock + rep.summary[k].incremental
  {
    var detail := Detail(lines);
    DetailCents(lines);
    var bds := Distinct(MapSeq(detail, BdOf));
    var summary := MapSeq(bds, BdTotals(detail));
    forall k | 0 <= k < |summary|
      ensures summary[k].stock == SumWithKey(detail, BdOf, summary[k].bd, StockAmount)
      ensures summary[k].incremental == SumWithKey(detail, BdOf, summary[k].bd, IncrementalAmount)
      ensures summary[k].total == summary[k].stock + summary[k].incremental
    {
      BdRowExact(detail, bds[k]);
    }
  }

  /** The 存量 and 增量 columns of the BD rows sum to those of the detail table. */
  lemma SummaryColumns(detail: seq<DetailLine>)
    requires forall d :: d in detail ==> IsCents(d.amount)
    ensures SumOf(Summary(detail), StockCol) == SumOf(detail, StockAmount)
    ensures SumOf(Summary(detail), IncrementalCol) == SumOf(detail, IncrementalAmount)
  {
    var bdCol := MapSeq(detail, BdOf);
    var bds := Distinct(bdCol);
    DistinctSpec(bdCol);
    forall d | d in detail ensures BdOf(d) in bds {
      var i :| 0 <= i < |detail| && detail[i] == d;
      assert bdCol[i] == BdOf(d);
    }
    SummaryColumnSums(detail, bds);
    SumPartition(detail, BdOf, bds, StockAmount);
    SumPartition(detail, BdOf, bds, IncrementalAmount);
  }

  /** The 共计 column of the BD rows sums to the 存量 and 增量 columns together. */
  lemma SummaryTotalColumn(detail: seq<DetailLine>)
    requires forall d :: d in detail ==> IsCents(d.amount)
    ensures SumOf(Summary(detail), TotalCol) == SumOf(Summary(detail), StockCol) + SumOf(Summary(detail), IncrementalCol)
  {
    var bds := Distinct(MapSeq(detail, BdOf));
    var summary := Summary(detail);
    forall r | r in summary ensures TotalCol(r) == StockCol(r) + IncrementalCol(r) {
      var k :| 0 <= k < |summary| && summary[k] == r;
      BdRowExact(detail, bds[k]);
    }
    SumOfAdd(summary, StockCol, IncrementalCol, TotalCol);
  }

  /** The 总计 row holds the column sums of the detail table, which are also the column
      sums of the BD rows. */
  lemma TotalExact(lines: seq<Line>)
    ensures var rep := BuildReport(lines);
      && rep.total.bd == TotalLabel
      && rep.total.stock == SumOf(rep.detail, StockAmount) == SumOf(rep.summary, StockCol)
      && rep.total.incremental == SumOf(rep.detail, IncrementalAmount) == SumOf(rep.summary, IncrementalCol)
      && rep.total.total == SumOf(rep.detail, DetailAmount) == SumOf(rep.summary, TotalCol)
  {
    var detail := Detail(lines);
    DetailCents(lines);
    SummaryColumns(detail);
    SummaryTotalColumn(detail);
    assert IsCents(0.0);
    SumOfCents(detail, StockAmount);
    SumOfCents(detail, IncrementalAmount);
    RoundedRowExact(TotalLabel, SumOf(detail, StockAmount), SumOf(detail, IncrementalAmount));
    SumOfAdd(detail, StockAmount, IncrementalAmount, DetailAmount);
  }

  /** For an analysis run: the detail rows are exactly the positive bonus lines, and
      the totals are exact. */
  lemma ReportOfAnalysis(sales: seq<Sale>, rules: seq<Rule>, start: int, end: int)
    requires Analyze(sales, rules, start, end).Analysed?
    ensures var lines := BonusLines(AnalysisRows(sales, rules), start, end);
      var rep := Analyze(sales, rules, start, end).report;
      && rep == BuildReport(lines)
      && (forall d :: d in rep.detail ==> d.amount > 0.0 && exists i :: 0 <= i < |lines| && d == DetailOf(lines[i]))
      && (forall i :: 0 <= i < |lines| && lines[i].amount > 0.0 ==> DetailOf(lines[i]) in rep.detail)
  {
    var analysis := AnalysisRows(sales, rules);
    BonusLinesShape(analysis, start, end);
    DetailIsPositiveLines(BonusLines(analysis, start, end));
  }

  /** An analysis crashes when either uploaded table has no rows, and when no sale
      of the table is fresh fruit: no pair survives the filters. */
  lemma EmptyMatchCrashes(sales: seq<Sale>, rules: seq<Rule>, start: int, end: int)
    requires start < end
    requires sales == [] || rules == [] || forall s :: s in sales ==> s.category != FreshFruit
    ensures Analyze(sales, rules, start, end) == Crashed
  {
    var pairs := FreshPairs(sales, rules);
    if pairs != [] {
      FreshPairMember(sales, rules, pairs[0]);
    }
  }

  /** Analysis rows none of which falls in the bonus period give a report with no
      detail, no BD rows and a 总计 row of zeros, not a crash. */
  lemma EmptyPeriodReport(sales: seq<Sale>, rules: seq<Rule>, start: int, end: int)
    requires start < end && AnalysisRows(sales, rules) != []
    requires forall c :: c in AnalysisRows(sales, rules) ==> !(start <= c.sale.date <= end)
    ensures Analyze(sales, rules, start, end) == Analysed(Report([], [], BdSummary(TotalLabel, 0.0, 0.0, 0.0)))
  {
    var analysis := AnalysisRows(sales, rules);
    var rows := BonusRows(analysis, start, end);
    if rows != [] {
      assert rows[0] in rows;
      WindowRowsSound(analysis, InBonusWindow(start, end));
    }
    assert BonusLines(analysis, start, end) == [];
    DistinctSpec(MapSeq([], DetailKeyOf));
    assert Detail([]) == [];
    DistinctSpec(MapSeq([], BdOf));
    assert Summary([]) == [];
    Round2Positive(0.0);
  }

  /** The identity key is not injective: different (customer, keyword, product)
      triples can share it when a field contains "_", and the later one is then
      discarded as a duplicate of the earlier. */
  lemma IdentityKeyCollision()
    ensures var s1 := Sale(0, "", "b_b", FreshFruit, "a", "", "", 1.0);
      var s2 := Sale(0, "", "b", FreshFruit, "a_b", "", "", 1.0);
      var c1 := Candidate(s1, Rule("b", "", 0.0, 0.0), "", true);
      var c2 := Candidate(s2, Rule("b", "", 0.0, 0.0), "", true);
      c1.sale.customer != c2.sale.customer && IdentityKey(c1) == IdentityKey(c2)
  {
    assert "a" + "_" + "b" + "_" + "b_b" == "a_b" + "_" + "b" + "_" + "b";
  }
}
