/** baojia.py: a fresh-produce quoting tool. Quote-file product names are matched by a
    fuzzy score against cleaned cost-table names; a matched product's quote is its cost
    marked up by its category's gross margin, and a combined gross margin is reported. */
module Quote {
  import opened Common

  // ---------------------------------------------------------------------------
  // clean_product_name
  // ---------------------------------------------------------------------------

  /** Where `.*?\)` starting at index j ends: the first ')' before any newline
      (`.` does not match a newline). */
  function FindClose(s: string, j: nat): (r: Option<nat>)
    requires j <= |s|
    ensures r.Some? ==> j <= r.value < |s| && s[r.value] == ')'
    decreases |s| - j
  {
    if j == |s| || s[j] == '\n' then None
    else if s[j] == ')' then Some(j)
    else FindClose(s, j + 1)
  }

  /** re.sub(r'\(.*?\)', '', s): every shortest "(...)" group on one line removed,
      scanning left to right. */
  function RemoveGroups(s: string): (r: string)
    ensures |r| <= |s|
    decreases |s|
  {
    if s == [] then []
    else if s[0] == '(' && FindClose(s, 1).Some? then RemoveGroups(s[FindClose(s, 1).value + 1..])
    else [s[0]] + RemoveGroups(s[1..])
  }

  /** re.sub(r'\s+', ' ', s): every run of whitespace becomes one space. */
  function Collapse(s: string): (r: string)
    ensures |r| <= |s|
    decreases |s|
  {
    if s == [] then []
    else if IsSpace(s[0]) then [' '] + Collapse(TrimStart(s[1..]))
    else [s[0]] + Collapse(s[1..])
  }

  /** clean_product_name: "" for a missing name; else groups removed, whitespace
      collapsed, the ends stripped and the letters lowered. */
  function CleanName(name: Option<string>): string
  {
    match name
    case None => ""
    case Some(s) => Lower(Trim(Collapse(RemoveGroups(s))))
  }

  /** No '(' is followed, on its line, by a ')'. */
  predicate NoGroups(s: string)
  {
    forall i :: 0 <= i < |s| && s[i] == '(' ==> FindClose(s, i + 1).None?
  }

  /** Single-spaced: the only whitespace is ' ', never twice in a row. */
  predicate SingleSpaced(s: string)
  {
    (forall i :: 0 <= i < |s| && IsSpace(s[i]) ==> s[i] == ' ')
    && forall i :: 0 <= i < |s| - 1 ==> !(s[i] == ' ' && s[i + 1] == ' ')
  }

  predicate Trimmed(s: string)
  {
    s != [] ==> !IsSpace(s[0]) && !IsSpace(s[|s| - 1])
  }

  predicate NoUpper(s: string)
  {
    forall i :: 0 <= i < |s| ==> !('A' <= s[i] <= 'Z')
  }

  /** What a cleaned name looks like. */
  predicate IsClean(s: string)
  {
    SingleSpaced(s) && Trimmed(s) && NoUpper(s)
  }

  // Facts about the group removal ---------------------------------------------

  /** FindClose is blind to a prefix it starts after. */
  lemma {:induction false} FindCloseShift(c: char, t: string, j: nat)
    requires j <= |t|
    ensures FindClose([c] + t, j + 1) == (match FindClose(t, j) case None => None case Some(k) => Some(k + 1))
    decreases |t| - j
  {
    var s := [c] + t;
    assert s[j + 1..] == t[j..];
    if j < |t| {
      assert s[j + 1] == t[j];
      if t[j] != '\n' && t[j] != ')' {
        FindCloseShift(c, t, j + 1);
      }
    }
  }

  /** A line start without a closing parenthesis keeps none after the removal. */
  lemma {:induction false} NoCloseKept(t: string)
    requires FindClose(t, 0).None?
    ensures FindClose(RemoveGroups(t), 0).None?
    decreases |t|
  {
    if t != [] {
      var r := RemoveGroups(t);
      if t[0] == '\n' {
        assert r[0] == '\n';
      } else {
        assert t[0] != ')';
        FindCloseShift(t[0], t[1..], 0);
        assert [t[0]] + t[1..] == t;
        assert FindClose(t[1..], 0).None?;
        if t[0] == '(' {
          assert FindClose(t, 1) == FindClose(t, 0);
        }
        NoCloseKept(t[1..]);
        FindCloseShift(t[0], RemoveGroups(t[1..]), 0);
      }
    }
  }

  /** After the removal no group is left. */
  lemma {:induction false} RemoveGroupsClears(s: string)
    ensures NoGroups(RemoveGroups(s))
    decreases |s|
  {
    if s != [] {
      if s[0] == '(' && FindClose(s, 1).Some? {
        RemoveGroupsClears(s[FindClose(s, 1).value + 1..]);
      } else {
        var t := RemoveGroups(s[1..]);
        var r := [s[0]] + t;
        RemoveGroupsClears(s[1..]);
        forall i | 0 <= i < |r| && r[i] == '(' ensures FindClose(r, i + 1).None? {
          if i > 0 {
            assert t[i - 1] == '(';
            FindCloseShift(s[0], t, i);
          } else {
            assert FindClose(s, 1).None?;
            FindCloseShift(s[0], s[1..], 0);
            assert [s[0]] + s[1..] == s;
            NoCloseKept(s[1..]);
            FindCloseShift(s[0], t, 0);
          }
        }
      }
    }
  }

  /** A name without '(' loses nothing. */
  lemma {:induction false} RemoveGroupsKeeps(s: string)
    requires '(' !in s
    ensures RemoveGroups(s) == s
  {
    if s != [] {
      assert '(' !in s[1..];
      RemoveGroupsKeeps(s[1..]);
    }
  }

  // Facts about whitespace ----------------------------------------------------

  lemma {:induction false} CollapseSpaced(s: string)
    ensures SingleSpaced(Collapse(s))
    ensures Collapse(s) != [] && IsSpace(Collapse(s)[0]) ==> s != [] && IsSpace(s[0])
    decreases |s|
  {
    if s != [] {
      var r := Collapse(s);
      if IsSpace(s[0]) {
        var u := TrimStart(s[1..]);
        CollapseSpaced(u);
        var t := Collapse(u);
        assert r == [' '] + t;
        assert t != [] ==> !IsSpace(t[0]);
        forall i | 0 <= i < |r| - 1 ensures !(r[i] == ' ' && r[i + 1] == ' ') {
          if i > 0 { assert r[i] == t[i - 1] && r[i + 1] == t[i]; }
        }
        forall i | 0 <= i < |r| && IsSpace(r[i]) ensures r[i] == ' ' {
          if i > 0 { assert r[i] == t[i - 1]; }
        }
      } else {
        CollapseSpaced(s[1..]);
        var t := Collapse(s[1..]);
        assert r == [s[0]] + t;
        forall i | 0 <= i < |r| - 1 ensures !(r[i] == ' ' && r[i + 1] == ' ') {
          if i > 0 { assert r[i] == t[i - 1] && r[i + 1] == t[i]; }
        }
        forall i | 0 <= i < |r| && IsSpace(r[i]) ensures r[i] == ' ' {
          if i > 0 { assert r[i] == t[i - 1]; }
        }
      }
    }
  }

  /** A single-spaced name is its own collapse. */
  lemma {:induction false} CollapseKeeps(s: string)
    requires SingleSpaced(s)
    ensures Collapse(s) == s
    decreases |s|
  {
    if s != [] {
      assert SingleSpaced(s[1..]) by {
        forall i | 0 <= i < |s[1..]| && IsSpace(s[1..][i]) ensures s[1..][i] == ' ' { assert s[1..][i] == s[i + 1]; }
        forall i | 0 <= i < |s[1..]| - 1 ensures !(s[1..][i] == ' ' && s[1..][i + 1] == ' ') {
          assert s[1..][i] == s[i + 1] && s[1..][i + 1] == s[i + 2];
        }
      }
      if IsSpace(s[0]) {
        assert s[1..] == [] || !IsSpace(s[1]);
        assert TrimStart(s[1..]) == s[1..];
      }
      CollapseKeeps(s[1..]);
    }
  }

  /** A slice of a single-spaced string is single-spaced. */
  lemma SliceSpaced(s: string, a: nat, b: nat)
    requires a <= b <= |s| && SingleSpaced(s)
    ensures SingleSpaced(s[a..b])
  {
    var t := s[a..b];
    forall i | 0 <= i < |t| - 1 ensures !(t[i] == ' ' && t[i + 1] == ' ') {
      assert t[i] == s[a + i] && t[i + 1] == s[a + i + 1];
    }
    forall i | 0 <= i < |t| && IsSpace(t[i]) ensures t[i] == ' ' {
      assert t[i] == s[a + i];
    }
  }

  /** Stripping keeps single spacing and leaves no whitespace at the ends. */
  lemma TrimFacts(s: string)
    requires SingleSpaced(s)
    ensures SingleSpaced(Trim(s)) && Trimmed(Trim(s))
  {
    var u := TrimStart(s);
    SliceSpaced(s, |s| - |u|, |s|);
    var v := TrimEnd(u);
    SliceSpaced(u, 0, |v|);
    if v != [] {
      assert v[0] == u[0];
    }
  }

  /** A name without whitespace at either end strips to itself. */
  lemma TrimKeeps(s: string)
    requires Trimmed(s)
    ensures Trim(s) == s
  {
    assert TrimStart(s) == s;
    assert TrimEnd(s) == s;
  }

  /** Lowering changes only letters, so spacing survives and no capital remains. */
  lemma LowerFacts(s: string)
    requires SingleSpaced(s) && Trimmed(s)
    ensures IsClean(Lower(s))
  {
    var l := Lower(s);
    forall i | 0 <= i < |s| ensures (IsSpace(l[i]) <==> IsSpace(s[i])) && (l[i] == ' ' <==> s[i] == ' ') {
      assert l[i] == LowerChar(s[i]);
    }
  }

  lemma LowerKeeps(s: string)
    requires NoUpper(s)
    ensures Lower(s) == s
  {
  }

  // The cleaning, as a whole ---------------------------------------------------

  /** A cleaned name is single-spaced, stripped and has no capital letter. */
  lemma CleanNameIsClean(name: Option<string>)
    ensures IsClean(CleanName(name))
    ensures name.None? ==> CleanName(name) == ""
  {
    if name.Some? {
      var c := Collapse(RemoveGroups(name.value));
      CollapseSpaced(RemoveGroups(name.value));
      TrimFacts(c);
      LowerFacts(Trim(c));
    }
  }

  /** Cleaning leaves an already clean name without parentheses as it is. */
  lemma CleanKeepsCleanNames(s: string)
    requires IsClean(s) && '(' !in s
    ensures CleanName(Some(s)) == s
  {
    RemoveGroupsKeeps(s);
    CollapseKeeps(s);
    TrimKeeps(s);
    LowerKeeps(s);
  }

  // ---------------------------------------------------------------------------
  // fuzzy_match_product
  // ---------------------------------------------------------------------------

  const Threshold: int := 80

  /** process.extractOne: the first choice with the highest score. The score itself
      (fuzzywuzzy's WRatio with its own preprocessing) is a parameter. */
  function ExtractOne(query: string, choices: seq<string>, score: (string, string) -> int): (r: (string, int))
    requires choices != []
    ensures r.0 in choices && r.1 == score(query, r.0)
    ensures forall k :: 0 <= k < |choices| ==> score(query, choices[k]) <= r.1
  {
    if |choices| == 1 then (choices[0], score(query, choices[0]))
    else
      var rest := ExtractOne(query, choices[1..], score);
      assert forall k :: 1 <= k < |choices| ==> choices[k] == choices[1..][k - 1];
      if score(query, choices[0]) >= rest.1 then (choices[0], score(query, choices[0])) else rest
  }

  /** fuzzy_match_product with the default threshold: (None, 0) for no candidates, an
      empty cleaned name or a best score below the threshold. */
  function FuzzyMatch(quoteName: Option<string>, costNames: seq<string>, score: (string, string) -> int): (r: (Option<string>, int))
  {
    if costNames == [] then (None, 0)
    else
      var cleaned := CleanName(quoteName);
      if cleaned == "" then (None, 0)
      else
        var best := ExtractOne(cleaned, costNames, score);
        if best.1 >= Threshold then (Some(best.0), best.1) else (None, 0)
  }

  /** A match is reported only for candidates, a non-empty cleaned name and a best score
      of at least 80; it is a candidate with the best score; otherwise the score is 0. */
  lemma FuzzyMatchGate(quoteName: Option<string>, costNames: seq<string>, score: (string, string) -> int)
    ensures var r := FuzzyMatch(quoteName, costNames, score);
      (r.0.Some? <==> costNames != [] && CleanName(quoteName) != ""
                      && ExtractOne(CleanName(quoteName), costNames, score).1 >= Threshold)
      && (r.0.None? ==> r.1 == 0)
      && (r.0.Some? ==> r.0.value in costNames && r.1 >= Threshold
                        && forall k :: 0 <= k < |costNames| ==> score(CleanName(quoteName), costNames[k]) <= r.1)
  {
  }

  // ---------------------------------------------------------------------------
  // The tables of calculate_quote
  // ---------------------------------------------------------------------------

  /** The "无" placeholder the result table shows for a missing value. */
  const NoValue: string := "无"
  const OnlineCustomer: string := "线上客户"
  const NameColumn: string := "商品名称"
  const QuantityColumn: string := "数量"
  const CostColumns: seq<string> := ["商品名称", "商品分类", "成本价"]
  const MarginColumns: seq<string> := ["序号", "商品分类", "线上客户毛利率", "线下客户毛利率"]

  /** A row of the cost-price table (商品名称, 商品分类, 成本价). */
  datatype CostRow = CostRow(name: Option<string>, category: string, cost: real)
  datatype CostTable = CostTable(columns: seq<string>, rows: seq<CostRow>)

  /** A row of the head-office margin table (序号, 商品分类, 线上客户毛利率, 线下客户毛利率).
      The rate cells are the numbers as read; a cell of a text column such as "25%" is read
      as 25.0 with its '%' dropped. */
  datatype MarginRow = MarginRow(seqNo: Option<real>, category: string, online: real, offline: real)

  /** The margin table; `onlineText`/`offlineText` say whether that rate column was read as
      text (pandas dtype object). */
  datatype MarginTable = MarginTable(columns: seq<string>, rows: seq<MarginRow>, onlineText: bool, offlineText: bool)

  /** A row of the file to be quoted (商品名称 and, when the column exists, 数量). */
  datatype QuoteRow = QuoteRow(name: Option<string>, quantity: real)
  datatype QuoteTable = QuoteTable(columns: seq<string>, rows: seq<QuoteRow>)

  /** A cell of the result table: a number, or the "无" placeholder. */
  datatype Cell = Absent | Num(x: real)

  /** A row of the result table. `matchedName` and `category` hold "无" when nothing matched. */
  datatype ResultRow = ResultRow(original: Option<string>, matchedName: string, score: int, category: string,
                                 cost: Cell, margin: Cell, quote: Cell, quantity: Cell, total: Cell)

  /** A combined gross margin: a number, or NaN (the mean of an empty group). */
  datatype Figure = NotANumber | Value(x: real)

  // Margin rates -----------------------------------------------------------------

  /** The margin column for the customer type: 线上客户毛利率 online, 线下客户毛利率 offline. */
  function Rate(r: MarginRow, online: bool): real
  {
    if online then r.online else r.offline
  }

  function RateOf(online: bool): MarginRow -> real
  {
    r => Rate(r, online)
  }

  /** Series.max(): the largest rate, None for an empty column. */
  function MaxRate(rows: seq<MarginRow>, online: bool): (r: Option<real>)
    ensures r.None? <==> rows == []
    ensures r.Some? ==> (forall k :: 0 <= k < |rows| ==> Rate(rows[k], online) <= r.value)
                        && exists k :: 0 <= k < |rows| && Rate(rows[k], online) == r.value
  {
    if rows == [] then None
    else
      var rest := MaxRate(rows[1..], online);
      assert forall k :: 1 <= k < |rows| ==> rows[k] == rows[1..][k - 1];
      if rest.None? || Rate(rows[0], online) >= rest.value then Some(Rate(rows[0], online))
      else
        var k :| 0 <= k < |rows[1..]| && Rate(rows[1..][k], online) == rest.value;
        assert rows[k + 1] == rows[1..][k];
        rest
  }

  /** Whether the chosen column is divided by 100: always for a text column, and for a
      numeric column when its maximum exceeds 1 (a NaN maximum of an empty column does not). */
  predicate Scaled(t: MarginTable, online: bool)
  {
    (if online then t.onlineText else t.offlineText)
    || (MaxRate(t.rows, online).Some? && MaxRate(t.rows, online).value > 1.0)
  }

  function WithRate(r: MarginRow, online: bool, rate: real): MarginRow
  {
    if online then r.(online := rate) else r.(offline := rate)
  }

  /** The margin table's rows after the percent-to-fraction step: the chosen column divided
      by 100 when `Scaled`, the other column untouched. */
  function Normalise(t: MarginTable, online: bool): (r: seq<MarginRow>)
    ensures |r| == |t.rows|
    ensures forall k :: 0 <= k < |r| ==> r[k].seqNo == t.rows[k].seqNo && r[k].category == t.rows[k].category
    ensures forall k :: 0 <= k < |r| ==> Rate(r[k], !online) == Rate(t.rows[k], !online)
  {
    var scaled := Scaled(t, online);
    seq(|t.rows|, k requires 0 <= k < |t.rows| =>
      if scaled then WithRate(t.rows[k], online, Rate(t.rows[k], online) / 100.0) else t.rows[k])
  }

  /** A numeric column is divided exactly when one of its rates exceeds 1. */
  lemma ScaledIff(t: MarginTable, online: bool)
    requires !(if online then t.onlineText else t.offlineText)
    ensures Scaled(t, online) <==> exists k :: 0 <= k < |t.rows| && Rate(t.rows[k], online) > 1.0
  {
    if exists k :: 0 <= k < |t.rows| && Rate(t.rows[k], online) > 1.0 {
      var k :| 0 <= k < |t.rows| && Rate(t.rows[k], online) > 1.0;
      assert MaxRate(t.rows, online).Some?;
    }
  }

  /** Rates given either as percentages (0-100) or as fractions (0-1) come out as fractions,
      and every normalised rate is the read rate or that rate over 100. */
  lemma NormalisedAreFractions(t: MarginTable, online: bool)
    requires forall k :: 0 <= k < |t.rows| ==> 0.0 <= Rate(t.rows[k], online) <= 100.0
    ensures forall k :: 0 <= k < |t.rows| ==> 0.0 <= Rate(Normalise(t, online)[k], online) <= 1.0
                                              || !Scaled(t, online)
    ensures forall k :: 0 <= k < |t.rows| ==>
      Rate(Normalise(t, online)[k], online) == Rate(t.rows[k], online) / 100.0
      || Rate(Normalise(t, online)[k], online) == Rate(t.rows[k], online)
    ensures !(if online then t.onlineText else t.offlineText) ==>
      forall k :: 0 <= k < |t.rows| ==> 0.0 <= Rate(Normalise(t, online)[k], online) <= 1.0
  {
    var n := Normalise(t, online);
    if !(if online then t.onlineText else t.offlineText) && !Scaled(t, online) {
      ScaledIff(t, online);
    }
  }

  /** Normalising a numeric column of percentages twice is normalising it once: after the
      first pass no rate exceeds 1. */
  lemma NormaliseIdempotent(t: MarginTable, online: bool)
    requires !t.onlineText && !t.offlineText
    requires forall k :: 0 <= k < |t.rows| ==> Rate(t.rows[k], online) <= 100.0
    ensures Normalise(t.(rows := Normalise(t, online)), online) == Normalise(t, online)
  {
    var n := Normalise(t, online);
    var t2 := t.(rows := n);
    forall k | 0 <= k < |n| ensures Rate(n[k], online) <= 1.0 || !Scaled(t, online) { }
    if Scaled(t, online) {
      ScaledIff(t2, online);
      assert !Scaled(t2, online);
    } else {
      assert n == t.rows;
    }
  }

  // One quoted product -------------------------------------------------------------

  /** The cleaned cost names (the cleaned_name column). */
  function CleanNames(costs: seq<CostRow>): (r: seq<string>)
    ensures |r| == |costs| && forall k :: 0 <= k < |costs| ==> r[k] == CleanName(costs[k].name)
  {
    seq(|costs|, k requires 0 <= k < |costs| => CleanName(costs[k].name))
  }

  /** The first position of `name` in `names`. */
  function FirstOf(names: seq<string>, name: string): (i: nat)
    requires name in names
    ensures i < |names| && names[i] == name && name !in names[..i]
  {
    if names[0] == name then 0
    else
      assert names == [names[0]] + names[1..];
      var i := FirstOf(names[1..], name);
      assert names[..i + 1] == [names[0]] + names[1..][..i];
      i + 1
  }

  /** `.iloc[0]` of the cost rows whose cleaned name is `name`: the first such row. */
  function CostIndex(costs: seq<CostRow>, name: string): (i: nat)
    requires name in CleanNames(costs)
    ensures i < |costs| && CleanName(costs[i].name) == name
    ensures forall j :: 0 <= j < i ==> CleanName(costs[j].name) != name
  {
    var names := CleanNames(costs);
    var i := FirstOf(names, name);
    assert forall j :: 0 <= j < i ==> names[..i][j] == names[j];
    i
  }

  /** `.iloc[0]` of the margin rows of a category: the first one, None when there is none. */
  function MarginIndex(rows: seq<MarginRow>, category: string): (r: Option<nat>)
    ensures r.Some? ==> r.value < |rows| && rows[r.value].category == category
                        && forall j :: 0 <= j < r.value ==> rows[j].category != category
    ensures r.None? ==> forall j :: 0 <= j < |rows| ==> rows[j].category != category
  {
    if rows == [] then None
    else if rows[0].category == category then Some(0)
    else
      var rest := MarginIndex(rows[1..], category);
      assert forall j :: 1 <= j < |rows| ==> rows[j] == rows[1..][j - 1];
      match rest
      case None => None
      case Some(i) => Some(i + 1)
  }

  /** The price that leaves the margin `rate` on the cost: cost / (1 - rate). */
  function QuotePrice(cost: real, rate: real): real
    requires rate < 1.0
  {
    cost / (1.0 - rate)
  }

  /** (q - c) / q == 1 - c / q, over plain reals. */
  lemma MarginOfPrice(q: real, c: real, d: real)
    requires q * d == c && c != 0.0
    ensures q != 0.0 && (q - c) / q == 1.0 - d
  {
    assert q != 0.0;
    assert c / q == d;
    assert (q - c) / q == q / q - c / q;
  }

  /** The quote achieves its margin: (quote - cost) / quote is the rate, and a non-negative
      margin never quotes below the cost. */
  lemma QuotePriceMargin(cost: real, rate: real)
    requires rate < 1.0
    ensures cost != 0.0 ==> (QuotePrice(cost, rate) - cost) / QuotePrice(cost, rate) == rate
    ensures cost >= 0.0 && rate >= 0.0 ==> QuotePrice(cost, rate) >= cost
    ensures QuotePrice(cost, rate) * (1.0 - rate) == cost
  {
    var q := QuotePrice(cost, rate);
    var d := 1.0 - rate;
    assert q * d == cost;
    if cost != 0.0 {
      MarginOfPrice(q, cost, d);
    }
    if cost >= 0.0 && rate >= 0.0 {
      assert 0.0 < d <= 1.0;
      assert q >= 0.0;
      assert q * d <= q * 1.0;
    }
  }

  /** The row for a product that matched nothing. */
  function Unmatched(original: Option<string>, quantity: Cell): ResultRow
  {
    ResultRow(original, NoValue, 0, NoValue, Absent, Absent, Absent, quantity, Absent)
  }

  /** round(quote * quantity, 2), the 总计 column. */
  function LineTotal(price: real, quantity: real): real
  {
    Round2(price * quantity)
  }

  /** The row for a product matched to the cost row `c`: its name, category and cost; the
      margin of the first margin row of that category, the quote cost/(1-rate) and the total
      quote*quantity when the rate is below 1; "无" wherever a value is missing. `rates` is
      the normalised margin table. */
  function MatchedRow(original: Option<string>, c: CostRow, score: int, rates: seq<MarginRow>,
                      online: bool, hasQuantity: bool, quantity: real): ResultRow
  {
    var qty := if hasQuantity then Num(quantity) else Absent;
    var name := if c.name.Some? then c.name.value else NoValue;
    match MarginIndex(rates, c.category)
    case None => ResultRow(original, name, score, c.category, Num(c.cost), Absent, Absent, qty, Absent)
    case Some(j) =>
      var rate := Rate(rates[j], online);
      if rate < 1.0 then
        var q := QuotePrice(c.cost, rate);
        ResultRow(original, name, score, c.category, Num(c.cost), Num(Round2(rate * 100.0)), Num(Round2(q)),
                  qty, if hasQuantity then Num(LineTotal(q, quantity)) else Absent)
      else ResultRow(original, name, score, c.category, Num(c.cost), Absent, Absent, qty, Absent)
  }

  /** One pass of the loop of calculate_quote: the fuzzy match against the cleaned cost
      names, then the first cost row with the matched cleaned name. */
  function QuoteResult(costs: seq<CostRow>, rates: seq<MarginRow>, online: bool, hasQuantity: bool,
                       row: QuoteRow, score: (string, string) -> int): ResultRow
  {
    var m := FuzzyMatch(row.name, CleanNames(costs), score);
    if m.0.None? || m.0.value == "" then Unmatched(row.name, if hasQuantity then Num(row.quantity) else Absent)
    else MatchedRow(row.name, costs[CostIndex(costs, m.0.value)], m.1, rates, online, hasQuantity, row.quantity)
  }

  /** A product is matched exactly when the fuzzy match names a non-empty cost name; the
      matched name is the raw name of the first cost row with that cleaned name, the score is
      the match's; an unmatched product shows "无" and 0%. The quantity column is the
      quantity when the file has one. */
  lemma QuoteResultMatch(costs: seq<CostRow>, rates: seq<MarginRow>, online: bool, hasQuantity: bool,
                         row: QuoteRow, score: (string, string) -> int)
    ensures var r := QuoteResult(costs, rates, online, hasQuantity, row, score);
            var m := FuzzyMatch(row.name, CleanNames(costs), score);
            r.original == row.name
            && r.quantity == (if hasQuantity then Num(row.quantity) else Absent)
            && (m.0.Some? && m.0.value != "" ==>
                  exists i :: 0 <= i < |costs| && costs[i].name == Some(r.matchedName)
                    && CleanName(costs[i].name) == m.0.value && r.category == costs[i].category
                    && r.cost == Num(costs[i].cost) && r.score == m.1 >= Threshold
                    && forall j :: 0 <= j < i ==> CleanName(costs[j].name) != m.0.value)
            && (m.0.None? || m.0.value == "" ==>
                  r == Unmatched(row.name, r.quantity) && r.score == 0)
  {
    var m := FuzzyMatch(row.name, CleanNames(costs), score);
    var r := QuoteResult(costs, rates, online, hasQuantity, row, score);
    FuzzyMatchGate(row.name, CleanNames(costs), score);
    if m.0.Some? && m.0.value != "" {
      var i := CostIndex(costs, m.0.value);
      MatchedRowFields(row.name, costs[i], m.1, rates, online, hasQuantity, row.quantity);
      assert CleanName(costs[i].name) != "";
      assert costs[i].name == Some(r.matchedName);
    }
  }

  /** A matched row shows the product, the cost row's name, category and cost, the score
      and the quantity when the file has one. */
  lemma MatchedRowFields(original: Option<string>, c: CostRow, score: int, rates: seq<MarginRow>,
                         online: bool, hasQuantity: bool, quantity: real)
    ensures var r := MatchedRow(original, c, score, rates, online, hasQuantity, quantity);
            r.original == original && r.score == score && r.category == c.category && r.cost == Num(c.cost)
            && r.matchedName == (if c.name.Some? then c.name.value else NoValue)
            && r.quantity == (if hasQuantity then Num(quantity) else Absent)
  {
  }

  /** A matched product is priced exactly when its category has a margin row whose rate is
      below 1; then its margin is the rate in percent and its quote achieves that margin on
      the cost; the total is shown only for priced rows of a file with quantities. */
  lemma MatchedRowPrice(original: Option<string>, c: CostRow, score: int, rates: seq<MarginRow>,
                        online: bool, hasQuantity: bool, quantity: real)
    ensures var r := MatchedRow(original, c, score, rates, online, hasQuantity, quantity);
            var j := MarginIndex(rates, c.category);
            r.original == original && r.score == score && r.category == c.category && r.cost == Num(c.cost)
            && (r.quote.Num? <==> r.margin.Num?)
            && (r.total.Num? <==> r.quote.Num? && hasQuantity)
            && (r.quote.Num? <==> j.Some? && Rate(rates[j.value], online) < 1.0)
            && (r.quote.Num? ==>
                  var rate := Rate(rates[j.value], online);
                  r.margin == Num(Round2(rate * 100.0))
                  && r.quote == Num(Round2(QuotePrice(c.cost, rate)))
                  && (hasQuantity ==> r.total == Num(LineTotal(QuotePrice(c.cost, rate), quantity))))
  {
    var r := MatchedRow(original, c, score, rates, online, hasQuantity, quantity);
    var qty := if hasQuantity then Num(quantity) else Absent;
    var name := if c.name.Some? then c.name.value else NoValue;
    match MarginIndex(rates, c.category)
    case None =>
      assert r == ResultRow(original, name, score, c.category, Num(c.cost), Absent, Absent, qty, Absent);
    case Some(j) =>
      var rate := Rate(rates[j], online);
      if rate < 1.0 {
        var q := QuotePrice(c.cost, rate);
        assert r.margin == Num(Round2(rate * 100.0));
        assert r.quote == Num(Round2(q));
        assert r.quantity == qty;
        if hasQuantity {
          assert r.total == Num(LineTotal(q, quantity));
        } else {
          assert r.total == Absent;
        }
      } else {
        assert r == ResultRow(original, name, score, c.category, Num(c.cost), Absent, Absent, qty, Absent);
      }
  }

  // ---------------------------------------------------------------------------
  // The combined gross margin
  // ---------------------------------------------------------------------------

  /** The rows the weighted margin uses: a category other than "无" and a numeric margin
      (the rows `pd.to_numeric(..., errors='coerce')` and `dropna` keep). */
  predicate Weighed(r: ResultRow)
  {
    r.category != NoValue && r.margin.Num?
  }

  function ValueOf(c: Cell): real
  {
    if c.Num? then c.x else 0.0
  }

  /** 销售额: the rounded quote times the quantity. */
  function Sales(r: ResultRow): real
  {
    ValueOf(r.quote) * ValueOf(r.quantity)
  }

  /** 毛利贡献 as written: the margin column, which holds percentages, times the sales. */
  function PercentContribution(r: ResultRow): real
  {
    ValueOf(r.margin) * Sales(r)
  }

  /** The contribution with the margin taken as a fraction. */
  function Contribution(r: ResultRow): real
  {
    ValueOf(r.margin) / 100.0 * Sales(r)
  }

  /** The weighted average as written: contributions over total sales, 0 when the total is
      not positive (which covers no weighed rows). Its value is a percentage, yet it is shown
      with the `.2%` format, which multiplies by 100 once more. */
  function WeightedMarginAsWritten(rows: seq<ResultRow>): real
  {
    var t := Filter(rows, Weighed);
    var total := SumOf(t, Sales);
    if total > 0.0 then SumOf(t, PercentContribution) / total else 0.0
  }

  /** The weighted average as a fraction, as the `.2%` format expects. */
  function WeightedMargin(rows: seq<ResultRow>): real
  {
    var t := Filter(rows, Weighed);
    var total := SumOf(t, Sales);
    if total > 0.0 then SumOf(t, Contribution) / total else 0.0
  }

  /** The number before the '%' of f"{x:.2%}". */
  function ShownPercent(x: real): real
  {
    Round2(x * 100.0)
  }

  lemma ScaledQuotient(a: real, b: real, t: real)
    requires a == 100.0 * b && t != 0.0
    ensures a / t == 100.0 * (b / t)
  {
  }

  /** The weighted margin as written is always 100 times the fraction it should be. */
  lemma WeightedMarginHundredfold(rows: seq<ResultRow>)
    ensures WeightedMarginAsWritten(rows) == 100.0 * WeightedMargin(rows)
  {
    var t := Filter(rows, Weighed);
    SumOfScaled(t, PercentContribution, Contribution, 100.0);
    var total := SumOf(t, Sales);
    if total > 0.0 {
      ScaledQuotient(SumOf(t, PercentContribution), SumOf(t, Contribution), total);
    }
  }

  /** One priced product at a 25% margin (cost 7.5, quote 10, quantity 2): its margin column
      reads 25, but the reported weighted margin is shown as 2500.00%; the fraction shows
      25.00%. */
  lemma WeightedMarginShownHundredfold()
    ensures var r := ResultRow(Some("苹果"), "苹果", 100, "水果", Num(7.5), Num(25.0), Num(10.0), Num(2.0), Num(20.0));
            WeightedMarginAsWritten([r]) == 25.0 && ShownPercent(WeightedMarginAsWritten([r])) == 2500.0
            && WeightedMargin([r]) == 0.25 && ShownPercent(WeightedMargin([r])) == 25.0
  {
    var r := ResultRow(Some("苹果"), "苹果", 100, "水果", Num(7.5), Num(25.0), Num(10.0), Num(2.0), Num(20.0));
    assert Weighed(r);
    assert Filter([r], Weighed) == [r];
    assert SumOf([r], Sales) == 20.0;
    assert SumOf([r], Contribution) == 5.0;
    assert SumOf([r], PercentContribution) == 500.0;
    assert (2500.0 * 100.0).Floor == 250000;
    assert (25.0 * 100.0).Floor == 2500;
  }

  lemma QuotientBetween(b: real, t: real, lo: real, hi: real)
    requires t > 0.0 && lo * t <= b <= hi * t
    ensures lo <= b / t <= hi
  {
  }

  lemma QuotientAtLeast(b: real, t: real, lo: real)
    requires t > 0.0 && lo * t <= b
    ensures lo <= b / t
  {
  }

  lemma QuotientAtMost(b: real, t: real, hi: real)
    requires t > 0.0 && b <= hi * t
    ensures b / t <= hi
  {
  }

  lemma ProductAtLeast(m: real, s: real, lo: real)
    requires lo <= m && s >= 0.0
    ensures lo * s <= m * s
  {
  }

  lemma ProductAtMost(m: real, s: real, hi: real)
    requires m <= hi && s >= 0.0
    ensures m * s <= hi * s
  {
  }

  /** Rows with a non-negative quote and quantity. */
  predicate NonNegative(x: ResultRow)
  {
    ValueOf(x.quote) >= 0.0 && ValueOf(x.quantity) >= 0.0
  }

  lemma SalesNonNegative(x: ResultRow)
    requires NonNegative(x)
    ensures Sales(x) >= 0.0
  {
    ProductAtLeast(ValueOf(x.quote), ValueOf(x.quantity), 0.0);
  }

  /** Summed over rows whose margins are at least lo%, the contributions are at least
      lo/100 of the sales. */
  lemma ContributionsAtLeast(t: seq<ResultRow>, lo: real)
    requires forall x :: x in t ==> x.margin.Num? && NonNegative(x) && lo <= x.margin.x
    ensures lo / 100.0 * SumOf(t, Sales) <= SumOf(t, Contribution)
    ensures SumOf(t, Sales) > 0.0 ==> lo / 100.0 <= SumOf(t, Contribution) / SumOf(t, Sales)
  {
    forall x | x in t ensures Contribution(x) >= lo / 100.0 * Sales(x) {
      SalesNonNegative(x);
      ProductAtLeast(x.margin.x / 100.0, Sales(x), lo / 100.0);
    }
    SumOfWeightedAtLeast(t, Sales, Contribution, lo / 100.0);
    if SumOf(t, Sales) > 0.0 {
      QuotientAtLeast(SumOf(t, Contribution), SumOf(t, Sales), lo / 100.0);
    }
  }

  /** Summed over rows whose margins are at most hi%, the contributions are at most hi/100
      of the sales. */
  lemma ContributionsAtMost(t: seq<ResultRow>, hi: real)
    requires forall x :: x in t ==> x.margin.Num? && NonNegative(x) && x.margin.x <= hi
    ensures SumOf(t, Contribution) <= hi / 100.0 * SumOf(t, Sales)
    ensures SumOf(t, Sales) > 0.0 ==> SumOf(t, Contribution) / SumOf(t, Sales) <= hi / 100.0
  {
    forall x | x in t ensures Contribution(x) <= hi / 100.0 * Sales(x) {
      SalesNonNegative(x);
      ProductAtMost(x.margin.x / 100.0, Sales(x), hi / 100.0);
    }
    SumOfWeightedAtMost(t, Sales, Contribution, hi / 100.0);
    if SumOf(t, Sales) > 0.0 {
      QuotientAtMost(SumOf(t, Contribution), SumOf(t, Sales), hi / 100.0);
    }
  }

  /** With non-negative quotes and quantities and every weighed margin between lo% and hi%, the weighted
      margin lies between lo/100 and hi/100; without positive sales it is 0. */
  lemma WeightedMarginBounds(rows: seq<ResultRow>, lo: real, hi: real)
    requires forall k :: 0 <= k < |rows| && Weighed(rows[k]) ==>
               NonNegative(rows[k]) && lo <= rows[k].margin.x <= hi
    ensures var total := SumOf(Filter(rows, Weighed), Sales);
            (total > 0.0 ==> lo / 100.0 <= WeightedMargin(rows) <= hi / 100.0)
            && (total <= 0.0 ==> WeightedMargin(rows) == 0.0)
  {
    var t := Filter(rows, Weighed);
    var total := SumOf(t, Sales);
    forall x | x in t ensures x.margin.Num? && NonNegative(x) && lo <= x.margin.x <= hi {
      FilterMember(rows, Weighed, x);
    }
    ContributionsAtLeast(t, lo);
    ContributionsAtMost(t, hi);
  }

  /** 序号 1-7 form the main group; any other or missing 序号 the secondary one. */
  predicate MainGroup(r: MarginRow)
  {
    r.seqNo.Some? && 1.0 <= r.seqNo.value <= 7.0
  }

  predicate SecondaryGroup(r: MarginRow)
  {
    !MainGroup(r)
  }

  /** Series.mean() of the chosen rate column: NaN for no rows. */
  function Mean(rows: seq<MarginRow>, online: bool): Figure
  {
    if rows == [] then NotANumber else Value(SumOf(rows, RateOf(online)) / |rows| as real)
  }

  /** The grouped estimate: 85% of the main group's mean rate plus 15% of the secondary
      group's, NaN when either group is empty. `rates` is the normalised margin table. */
  function GroupAverage(rates: seq<MarginRow>, online: bool): Figure
  {
    var main := Mean(Filter(rates, MainGroup), online);
    var rest := Mean(Filter(rates, SecondaryGroup), online);
    if main.NotANumber? || rest.NotANumber? then NotANumber else Value(main.x * 0.85 + rest.x * 0.15)
  }

  lemma MeanBetween(rows: seq<MarginRow>, online: bool, lo: real, hi: real)
    requires rows != [] && forall x :: x in rows ==> lo <= Rate(x, online) <= hi
    ensures Mean(rows, online).Value? && lo <= Mean(rows, online).x <= hi
  {
    SumOfAtLeast(rows, RateOf(online), lo);
    SumOfAtMost(rows, RateOf(online), hi);
    QuotientBetween(SumOf(rows, RateOf(online)), |rows| as real, lo, hi);
  }

  /** Each group has rows exactly when some row of the table belongs to it. */
  lemma GroupsPresent(rates: seq<MarginRow>)
    ensures Filter(rates, MainGroup) != [] <==> exists k :: 0 <= k < |rates| && MainGroup(rates[k])
    ensures Filter(rates, SecondaryGroup) != [] <==> exists k :: 0 <= k < |rates| && !MainGroup(rates[k])
  {
    var main := Filter(rates, MainGroup);
    var rest := Filter(rates, SecondaryGroup);
    if main != [] {
      FilterMember(rates, MainGroup, main[0]);
    }
    if exists k :: 0 <= k < |rates| && MainGroup(rates[k]) {
      var k :| 0 <= k < |rates| && MainGroup(rates[k]);
      FilterMember(rates, MainGroup, rates[k]);
    }
    if rest != [] {
      FilterMember(rates, SecondaryGroup, rest[0]);
    }
    if exists k :: 0 <= k < |rates| && !MainGroup(rates[k]) {
      var k :| 0 <= k < |rates| && !MainGroup(rates[k]);
      FilterMember(rates, SecondaryGroup, rates[k]);
    }
  }

  /** The mean rate of a non-empty group lies between the smallest and the largest rate. */
  lemma GroupMeanBetween(rates: seq<MarginRow>, group: MarginRow -> bool, online: bool, lo: real, hi: real)
    requires forall k :: 0 <= k < |rates| ==> lo <= Rate(rates[k], online) <= hi
    requires Filter(rates, group) != []
    ensures Mean(Filter(rates, group), online).Value?
    ensures lo <= Mean(Filter(rates, group), online).x <= hi
  {
    forall x | x in Filter(rates, group) ensures lo <= Rate(x, online) <= hi {
      FilterMember(rates, group, x);
    }
    MeanBetween(Filter(rates, group), online, lo, hi);
  }

  lemma Blend(a: real, b: real, lo: real, hi: real)
    requires lo <= a <= hi && lo <= b <= hi
    ensures lo <= a * 0.85 + b * 0.15 <= hi
  {
  }

  /** The estimate is a number exactly when both groups have rows, and then lies between
      the smallest and the largest rate. */
  lemma GroupAverageBounds(rates: seq<MarginRow>, online: bool, lo: real, hi: real)
    requires forall k :: 0 <= k < |rates| ==> lo <= Rate(rates[k], online) <= hi
    ensures GroupAverage(rates, online).Value? <==>
              (exists k :: 0 <= k < |rates| && MainGroup(rates[k]))
              && exists k :: 0 <= k < |rates| && !MainGroup(rates[k])
    ensures GroupAverage(rates, online).Value? ==> lo <= GroupAverage(rates, online).x <= hi
  {
    GroupsPresent(rates);
    var main := Filter(rates, MainGroup);
    var rest := Filter(rates, SecondaryGroup);
    if main != [] && rest != [] {
      GroupMeanBetween(rates, MainGroup, online, lo, hi);
      GroupMeanBetween(rates, SecondaryGroup, online, lo, hi);
      Blend(Mean(main, online).x, Mean(rest, online).x, lo, hi);
    }
  }

  // ---------------------------------------------------------------------------
  // calculate_quote
  // ---------------------------------------------------------------------------

  /** The result table: one QuoteResult per row of the file to be quoted, in order. */
  function Results(costs: seq<CostRow>, rates: seq<MarginRow>, online: bool, hasQuantity: bool,
                   quotes: seq<QuoteRow>, score: (string, string) -> int): (r: seq<ResultRow>)
    ensures |r| == |quotes|
    ensures forall k :: 0 <= k < |quotes| ==> r[k] == QuoteResult(costs, rates, online, hasQuantity, quotes[k], score)
  {
    seq(|quotes|, k requires 0 <= k < |quotes| => QuoteResult(costs, rates, online, hasQuantity, quotes[k], score))
  }

  /** The combined margin: weighted by sales when the file has quantities and the result
      table has rows, the grouped estimate otherwise. */
  function Average(results: seq<ResultRow>, rates: seq<MarginRow>, online: bool, hasQuantity: bool): Figure
  {
    if hasQuantity && results != [] then Value(WeightedMargin(results)) else GroupAverage(rates, online)
  }

  /** The loop over the rows of the file to be quoted, appending one result per row. */
  method BuildResults(costs: seq<CostRow>, rates: seq<MarginRow>, online: bool, hasQuantity: bool,
                      quotes: seq<QuoteRow>, score: (string, string) -> int)
    returns (results: seq<ResultRow>)
    ensures results == Results(costs, rates, online, hasQuantity, quotes, score)
  {
    results := [];
    var k := 0;
    while k < |quotes|
      invariant 0 <= k <= |quotes|
      invariant results == Results(costs, rates, online, hasQuantity, quotes[..k], score)
    {
      ResultsPrefix(costs, rates, online, hasQuantity, quotes, k, score);
      results := results + [QuoteResult(costs, rates, online, hasQuantity, quotes[k], score)];
      k := k + 1;
    }
    assert quotes[..k] == quotes;
  }

  /** One more row of the file to be quoted adds its result at the end. */
  lemma ResultsPrefix(costs: seq<CostRow>, rates: seq<MarginRow>, online: bool, hasQuantity: bool,
                      quotes: seq<QuoteRow>, k: nat, score: (string, string) -> int)
    requires k < |quotes|
    ensures Results(costs, rates, online, hasQuantity, quotes[..k + 1], score)
      == Results(costs, rates, online, hasQuantity, quotes[..k], score) + [QuoteResult(costs, rates, online, hasQuantity, quotes[k], score)]
  {
    var l := Results(costs, rates, online, hasQuantity, quotes[..k + 1], score);
    var r := Results(costs, rates, online, hasQuantity, quotes[..k], score) + [QuoteResult(costs, rates, online, hasQuantity, quotes[k], score)];
    forall j | 0 <= j < |l| ensures l[j] == r[j] {
      assert quotes[..k + 1][j] == quotes[j];
      if j < k {
        assert quotes[..k][j] == quotes[j];
      }
    }
  }

  /** How a press of 计算报价 ends. */
  datatype Status = NotReady | MissingCostColumns | MissingMarginColumns | MissingQuoteColumn | Done

  /** The session state of the quoting page. */
  class QuoteSession {
    var costTable: Option<CostTable>
    var quoteTable: Option<QuoteTable>
    var marginTable: Option<MarginTable>
    var customerType: Option<string>
    var quoteResults: Option<seq<ResultRow>>
    var avgGrossMargin: Option<Figure>
    var hasQuantity: bool

    /** The session-state initialisation: nothing loaded, nothing computed. */
    constructor()
      ensures costTable.None? && quoteTable.None? && marginTable.None? && customerType.None?
      ensures quoteResults.None? && avgGrossMargin.None? && !hasQuantity
    {
      costTable := None;
      quoteTable := None;
      marginTable := None;
      customerType := None;
      quoteResults := None;
      avgGrossMargin := None;
      hasQuantity := false;
    }

    /** All three tables are loaded and a customer type is chosen. */
    predicate Ready()
      reads this
    {
      costTable.Some? && quoteTable.Some? && marginTable.Some? && customerType.Some?
    }

    /** Every required column is present. */
    predicate Complete()
      reads this
      requires Ready()
    {
      HasColumns(CostColumns, costTable.value.columns) && HasColumns(MarginColumns, marginTable.value.columns)
      && NameColumn in quoteTable.value.columns
    }

    /** calculate_quote: stops with a warning until everything is loaded and with an error
        for a missing required column, changing nothing; otherwise records whether the file
        has quantities, builds the result table row by row and records the combined margin.
        The weighted margin recorded is the fraction; the page as written records 100 times
        that value (see WeightedMarginHundredfold). */
    method CalculateQuote(score: (string, string) -> int) returns (status: Status)
      modifies this
      ensures costTable == old(costTable) && quoteTable == old(quoteTable)
      ensures marginTable == old(marginTable) && customerType == old(customerType)
      ensures status == NotReady <==> !Ready()
      ensures status == MissingCostColumns <==> Ready() && !HasColumns(CostColumns, costTable.value.columns)
      ensures status == MissingMarginColumns <==>
        Ready() && HasColumns(CostColumns, costTable.value.columns) && !HasColumns(MarginColumns, marginTable.value.columns)
      ensures status == MissingQuoteColumn <==>
        Ready() && HasColumns(CostColumns, costTable.value.columns) && HasColumns(MarginColumns, marginTable.value.columns)
        && NameColumn !in quoteTable.value.columns
      ensures status == Done <==> Ready() && Complete()
      ensures status != Done ==>
        quoteResults == old(quoteResults) && avgGrossMargin == old(avgGrossMargin) && hasQuantity == old(hasQuantity)
      ensures status == Done ==>
        var online := customerType.value == OnlineCustomer;
        var rates := Normalise(marginTable.value, online);
        hasQuantity == (QuantityColumn in quoteTable.value.columns)
        && quoteResults == Some(Results(costTable.value.rows, rates, online, hasQuantity, quoteTable.value.rows, score))
        && avgGrossMargin == Some(Average(quoteResults.value, rates, online, hasQuantity))
      ensures status == Done && hasQuantity && quoteResults.value != [] ==>
        avgGrossMargin == Some(Value(WeightedMargin(quoteResults.value)))
        && WeightedMarginAsWritten(quoteResults.value) == 100.0 * avgGrossMargin.value.x
    {
      if costTable.None? || quoteTable.None? || marginTable.None? || customerType.None? {
        return NotReady;
      }
      var costs := costTable.value;
      var quotes := quoteTable.value;
      var margins := marginTable.value;
      if !HasColumns(CostColumns, costs.columns) {
        return MissingCostColumns;
      }
      if !HasColumns(MarginColumns, margins.columns) {
        return MissingMarginColumns;
      }
      if NameColumn !in quotes.columns {
        return MissingQuoteColumn;
      }
      hasQuantity := QuantityColumn in quotes.columns;
      var online := customerType.value == OnlineCustomer;
      var rates := Normalise(margins, online);
      var results := BuildResults(costs.rows, rates, online, hasQuantity, quotes.rows, score);
      WeightedMarginHundredfold(results);
      avgGrossMargin := Some(Average(results, rates, online, hasQuantity));
      quoteResults := Some(results);
      status := Done;
    }
  }
}
