/** app001.py: the customers who bought any product of a match table, with each
    (客户名称, 商品名称) pair's latest order date (最后一次下单时间) and the first known
    m_id, BD and sku in ascending date order. */
module LastOrder {
  import opened Common

  // ---------------------------------------------------------------------------
  // read_file: extension dispatch
  // ---------------------------------------------------------------------------

  datatype FileFormat = Csv | Excel

  /** The index of the last occurrence of `c` in `s`. */
  function LastIndexOf(s: string, c: char): (r: Option<nat>)
    ensures r.None? <==> c !in s
    ensures r.Some? ==> r.value < |s| && s[r.value] == c && c !in s[r.value + 1..]
  {
    if s == [] then None
    else if s[|s| - 1] == c then Some(|s| - 1)
    else
      var init := s[..|s| - 1];
      var r := LastIndexOf(init, c);
      assert s == init + [s[|s| - 1]];
      assert r.Some? ==> s[r.value + 1..] == init[r.value + 1..] + [s[|s| - 1]];
      r
  }

  /** Where the last path component starts (just after the last '/'). */
  function NameStart(path: string): (r: nat)
    ensures r <= |path| && '/' !in path[r..]
  {
    match LastIndexOf(path, '/')
    case None => 0
    case Some(k) => k + 1
  }

  /** os.path.splitext(path)[1]: from the last '.' of the last path component, unless
      only dots precede it there (a hidden file such as ".csv" has no extension). */
  function Ext(path: string): (r: string)
  {
    var start := NameStart(path);
    match LastIndexOf(path, '.')
    case None => ""
    case Some(d) =>
      if start <= d && exists k :: start <= k < d && path[k] != '.' then path[d..] else ""
  }

  /** The reader read_file chooses; None is the ValueError for any other extension.
      Lowering the ASCII letters suffices: no other character lowers to a letter of
      ".csv", ".xlsx" or ".xls". */
  function Format(path: string): (r: Option<FileFormat>)
    ensures r == Some(Csv) <==> Lower(Ext(path)) == ".csv"
    ensures r == Some(Excel) <==> Lower(Ext(path)) == ".xlsx" || Lower(Ext(path)) == ".xls"
  {
    var ext := Lower(Ext(path));
    if ext == ".csv" then Some(Csv)
    else if ext == ".xlsx" || ext == ".xls" then Some(Excel)
    else None
  }

  // ---------------------------------------------------------------------------
  // Rows, matching and the group-by aggregation
  // ---------------------------------------------------------------------------

  /** A base-table row, restricted to the six selected columns; None is NaN/NaT. */
  datatype Record = Record(customer: Option<string>, product: Option<string>, mId: Option<string>,
                           bd: Option<string>, sku: Option<string>, date: Option<int>)

  /** A group-by key: (客户名称, 商品名称). */
  datatype Key = Key(customer: string, product: string)

  /** One output row; `lastDate` is 最后一次下单时间. */
  datatype ResultRow = ResultRow(customer: string, product: string, mId: Option<string>,
                                 bd: Option<string>, sku: Option<string>, lastDate: Option<int>)

  const BaseColumns: seq<string> := ["客户名称", "商品名称", "m_id", "BD", "sku", "下单时间"]
  const ProductColumn: string := "商品名称"

  predicate Dated(r: Record) { r.date.Some? }

  function ProductIn(products: seq<Option<string>>): Record -> bool
  {
    (r: Record) => r.product in products
  }

  /** dropna(subset=['下单时间']) then the isin filter on 商品名称 (isin matches NaN to NaN). */
  function MatchedRows(rows: seq<Record>, products: seq<Option<string>>): seq<Record>
  {
    Filter(Filter(rows, Dated), ProductIn(products))
  }

  /** The group a row falls in; groupby drops rows with a missing key. */
  function KeyOf(r: Record): Option<Key>
  {
    if r.customer.Some? && r.product.Some? then Some(Key(r.customer.value, r.product.value)) else None
  }

  predicate HasKey(rows: seq<Record>, k: Key)
  {
    exists i :: 0 <= i < |rows| && KeyOf(rows[i]) == Some(k)
  }

  /** The distinct group keys, in order of first appearance. */
  function GroupKeys(rows: seq<Record>): (r: seq<Key>)
    ensures NoDups(r)
    ensures forall k :: k in r <==> HasKey(rows, k)
  {
    if rows == [] then []
    else
      var n := |rows| - 1;
      var rest := GroupKeys(rows[..n]);
      assert forall k :: HasKey(rows, k) <==> HasKey(rows[..n], k) || KeyOf(rows[n]) == Some(k) by {
        forall k ensures HasKey(rows, k) ==> HasKey(rows[..n], k) || KeyOf(rows[n]) == Some(k) {
          if HasKey(rows, k) && KeyOf(rows[n]) != Some(k) {
            var i :| 0 <= i < |rows| && KeyOf(rows[i]) == Some(k);
            assert rows[..n][i] == rows[i];
          }
        }
        forall k ensures HasKey(rows[..n], k) ==> HasKey(rows, k) {
          if HasKey(rows[..n], k) {
            var i :| 0 <= i < n && KeyOf(rows[..n][i]) == Some(k);
            assert rows[i] == rows[..n][i];
          }
        }
      }
      match KeyOf(rows[n])
      case None => rest
      case Some(k) =>
        if k in rest then rest
        else
          assert NoDups(rest + [k]) by {
            forall i, j | 0 <= i < j < |rest + [k]| ensures (rest + [k])[i] != (rest + [k])[j] {
              if j == |rest| { assert (rest + [k])[i] == rest[i]; }
            }
          }
          rest + [k]
  }

  function InGroup(k: Key): Record -> bool
  {
    (r: Record) => KeyOf(r) == Some(k)
  }

  /** The rows of one group, in input order. */
  function Members(rows: seq<Record>, k: Key): seq<Record>
  {
    Filter(rows, InGroup(k))
  }

  /** sort_values('下单时间') order: row i sorts no later than row j, a stable sort
      breaking ties by position (NaT would sort last). */
  predicate SortsFirst(rows: seq<Record>, i: nat, j: nat)
    requires i < |rows| && j < |rows|
  {
    i == j
    || (rows[i].date.Some? && (rows[j].date.None? || rows[i].date.value < rows[j].date.value))
    || (rows[i].date == rows[j].date && i < j)
  }

  predicate StrictlyEarlier(a: Option<int>, b: Option<int>)
  {
    a.Some? && (b.None? || a.value < b.value)
  }

  /** The earliest row, in sorted order, whose field `f` is present. */
  function EarliestWith(rows: seq<Record>, f: Record -> Option<string>): (r: Option<nat>)
    ensures r.Some? ==> r.value < |rows|
  {
    if rows == [] then None
    else
      var n := |rows| - 1;
      var b := EarliestWith(rows[..n], f);
      if f(rows[n]).None? then b
      else if b.None? || StrictlyEarlier(rows[n].date, rows[b.value].date) then Some(n)
      else b
  }

  /** The 'first' aggregation: the first non-null value in sorted order. */
  function First(rows: seq<Record>, f: Record -> Option<string>): Option<string>
  {
    match EarliestWith(rows, f)
    case None => None
    case Some(i) => f(rows[i])
  }

  /** The 'max' aggregation on 下单时间 (NaT skipped). */
  function MaxDate(rows: seq<Record>): (r: Option<int>)
  {
    if rows == [] then None
    else
      var rest := MaxDate(rows[1..]);
      if rows[0].date.None? then rest
      else if rest.None? || rest.value < rows[0].date.value then rows[0].date
      else rest
  }

  function MIdOf(r: Record): Option<string> { r.mId }
  function BdOf(r: Record): Option<string> { r.bd }
  function SkuOf(r: Record): Option<string> { r.sku }

  /** The aggregated row of one group. */
  function Summarise(rows: seq<Record>, k: Key): ResultRow
  {
    var g := Members(rows, k);
    ResultRow(k.customer, k.product, First(g, MIdOf), First(g, BdOf), First(g, SkuOf), MaxDate(g))
  }

  /** result_df: one aggregated row per group (output order not modelled). */
  function Aggregate(rows: seq<Record>): (r: seq<ResultRow>)
    ensures |r| == |GroupKeys(rows)|
  {
    var keys := GroupKeys(rows);
    seq(|keys|, i requires 0 <= i < |keys| => Summarise(rows, keys[i]))
  }

  datatype Outcome =
    | UnsupportedFormat(ext: string)         // read_file's ValueError
    | MissingBaseColumns(missing: seq<string>)
    | MissingMatchColumn
    | NoMatches                              // "没有匹配到任何客户购买过指定的商品。"
    | Matched(rows: seq<ResultRow>)

  /** The processing of the two uploaded files (lines 52-92). */
  function Run(baseName: string, baseColumns: seq<string>, baseRows: seq<Record>,
               matchName: string, matchColumns: seq<string>, matchProducts: seq<Option<string>>): (r: Outcome)
    ensures r.UnsupportedFormat? <==> Format(baseName).None? || Format(matchName).None?
    ensures r.MissingBaseColumns? <==>
      Format(baseName).Some? && Format(matchName).Some? && !HasColumns(BaseColumns, baseColumns)
    ensures r.MissingBaseColumns? ==>
      forall c :: c in r.missing <==> c in BaseColumns && c !in baseColumns
    ensures r.MissingMatchColumn? <==>
      Format(baseName).Some? && Format(matchName).Some? && HasColumns(BaseColumns, baseColumns)
      && ProductColumn !in matchColumns
    ensures r.Matched? ==> r.rows == Aggregate(MatchedRows(baseRows, matchProducts)) && r.rows != []
    ensures r.NoMatches? ==> forall k :: !HasKey(MatchedRows(baseRows, matchProducts), k)
  {
    if Format(baseName).None? then UnsupportedFormat(Ext(baseName))
    else if Format(matchName).None? then UnsupportedFormat(Ext(matchName))
    else if MissingColumns(BaseColumns, baseColumns) != [] then
      MissingBaseColumns(MissingColumns(BaseColumns, baseColumns))
    else if ProductColumn !in matchColumns then MissingMatchColumn
    else
      var result := Aggregate(MatchedRows(baseRows, matchProducts));
      if result == [] then NoMatches else Matched(result)
  }

  // ---------------------------------------------------------------------------
  // Properties
  // ---------------------------------------------------------------------------

  /** A name ending in an extension without dots, after a stem that is not all dots,
      has exactly that extension. */
  lemma ExtOfName(dir: string, stem: string, ext: string)
    requires '.' !in stem && '/' !in stem && stem != []
    requires |ext| >= 1 && ext[0] == '.' && '.' !in ext[1..] && '/' !in ext
    ensures Ext(dir + stem + ext) == ext
  {
    var path := dir + stem + ext;
    var d := |dir| + |stem|;
    assert path[d..] == ext;
    forall k | |dir| <= k < |path| ensures path[k] != '/' {
      if k < d { assert path[k] == stem[k - |dir|]; } else { assert path[k] == ext[k - d]; }
    }
    forall k | d < k < |path| ensures path[k] != '.' {
      assert path[k] == ext[1..][k - d - 1];
    }
    var slash := LastIndexOf(path, '/');
    if slash.Some? {
      assert path[slash.value] == '/';
    }
    assert NameStart(path) <= |dir|;
    assert path[|dir|] == stem[0];
    var l := LastIndexOf(path, '.');
    assert path[d] == '.';
    forall k | l.value < k < |path| ensures path[k] != '.' {
      assert path[k] == path[l.value + 1..][k - l.value - 1];
    }
    assert l == Some(d);
  }

  /** The extension is matched case-insensitively: any casing of ".csv" reads as CSV and
      any casing of ".xlsx" or ".xls" as Excel. */
  lemma FormatIgnoresCase(dir: string, stem: string, ext: string)
    requires '.' !in stem && '/' !in stem && stem != []
    requires Lower(ext) == ".csv" || Lower(ext) == ".xlsx" || Lower(ext) == ".xls"
    ensures Format(dir + stem + ext) == if Lower(ext) == ".csv" then Some(Csv) else Some(Excel)
  {
    var low := Lower(ext);
    assert |low| >= 4 && low[0] == '.';
    assert forall k :: 1 <= k < |low| ==> 'a' <= low[k] <= 'z';
    forall k | 1 <= k < |ext| ensures ext[k] != '.' && ext[k] != '/' {
      assert low[k] == LowerChar(ext[k]);
    }
    assert LowerChar(ext[0]) == '.';
    ExtOfName(dir, stem, ext);
  }

  /** Other extensions are refused: ".txt" raises the ValueError. */
  lemma FormatRejectsOther(dir: string, stem: string)
    requires '.' !in stem && '/' !in stem && stem != []
    ensures Format(dir + stem + ".txt").None?
  {
    ExtOfName(dir, stem, ".txt");
    assert Lower(".txt") == ".txt";
  }

  /** A name made of dots and a dot-free word (".csv", "..xlsx") has no extension, so
      read_file rejects it. */
  lemma HiddenNameRejected(dots: string, word: string)
    requires forall k :: 0 <= k < |dots| ==> dots[k] == '.'
    requires '.' !in word && '/' !in word
    ensures Ext(dots + word) == "" && Format(dots + word).None?
  {
    var path := dots + word;
    forall k | |dots| <= k < |path| ensures path[k] != '.' {
      assert path[k] == word[k - |dots|];
    }
    forall k | 0 <= k < |dots| ensures path[k] == '.' {
      assert path[k] == dots[k];
    }
    var l := LastIndexOf(path, '.');
    if l.Some? {
      assert path[l.value] == '.';
    }
    assert Lower("") == "";
  }

  /** A row survives dropna and the isin filter iff it has a date and its 商品名称 is
      among the match table's. */
  lemma MatchedRowsIff(rows: seq<Record>, products: seq<Option<string>>, x: Record)
    ensures x in MatchedRows(rows, products) <==> x in rows && x.date.Some? && x.product in products
  {
    FilterMember(rows, Dated, x);
    FilterMember(Filter(rows, Dated), ProductIn(products), x);
  }

  /** The output has exactly one row per (客户名称, 商品名称) pair present in the input. */
  lemma OneRowPerPair(rows: seq<Record>)
    ensures forall i, j :: 0 <= i < j < |Aggregate(rows)| ==>
      (Aggregate(rows)[i].customer, Aggregate(rows)[i].product) != (Aggregate(rows)[j].customer, Aggregate(rows)[j].product)
    ensures forall k :: HasKey(rows, k) <==>
      exists i :: 0 <= i < |Aggregate(rows)| && Aggregate(rows)[i].customer == k.customer && Aggregate(rows)[i].product == k.product
  {
    var keys := GroupKeys(rows);
    var res := Aggregate(rows);
    forall i | 0 <= i < |res| ensures res[i].customer == keys[i].customer && res[i].product == keys[i].product {
    }
    forall k ensures HasKey(rows, k) ==>
      exists i :: 0 <= i < |res| && res[i].customer == k.customer && res[i].product == k.product
    {
      if HasKey(rows, k) {
        var i :| 0 <= i < |keys| && keys[i] == k;
        assert res[i].customer == k.customer && res[i].product == k.product;
      }
    }
    forall k: Key | exists i :: 0 <= i < |res| && res[i].customer == k.customer && res[i].product == k.product
      ensures HasKey(rows, k)
    {
      var i :| 0 <= i < |res| && res[i].customer == k.customer && res[i].product == k.product;
      assert keys[i] == k;
    }
  }

  /** 'max' is the largest date of the group, attained by one of its rows. */
  lemma {:induction false} MaxDateSpec(rows: seq<Record>)
    ensures MaxDate(rows).None? <==> forall j :: 0 <= j < |rows| ==> rows[j].date.None?
    ensures MaxDate(rows).Some? ==>
      (exists j :: 0 <= j < |rows| && rows[j].date == MaxDate(rows))
      && forall j :: 0 <= j < |rows| && rows[j].date.Some? ==> rows[j].date.value <= MaxDate(rows).value
  {
    if rows != [] {
      MaxDateSpec(rows[1..]);
      var rest := MaxDate(rows[1..]);
      assert forall j :: 1 <= j < |rows| ==> rows[j] == rows[1..][j - 1];
      if rest.Some? {
        var j :| 0 <= j < |rows[1..]| && rows[1..][j].date == rest;
        assert rows[j + 1].date == rest;
      }
    }
  }

  /** The earliest present value exists exactly when some row has one, and sorts
      first among the rows that have one. */
  lemma {:induction false} EarliestWithSpec(rows: seq<Record>, f: Record -> Option<string>)
    ensures EarliestWith(rows, f).None? <==> forall j :: 0 <= j < |rows| ==> f(rows[j]).None?
    ensures EarliestWith(rows, f).Some? ==>
      var i := EarliestWith(rows, f).value;
      f(rows[i]).Some? && forall j :: 0 <= j < |rows| && f(rows[j]).Some? ==> SortsFirst(rows, i, j)
  {
    if rows != [] {
      var n := |rows| - 1;
      var pre := rows[..n];
      EarliestWithSpec(pre, f);
      assert forall j :: 0 <= j < n ==> pre[j] == rows[j];
      var b := EarliestWith(pre, f);
      if b.Some? {
        forall j | 0 <= j < n && f(rows[j]).Some? ensures SortsFirst(rows, b.value, j) {
          assert SortsFirst(pre, b.value, j);
        }
      }
    }
  }

  /** SortsFirst is antisymmetric, so the earliest row is the only one with that property. */
  lemma SortsFirstAntisymmetric(rows: seq<Record>, i: nat, j: nat)
    requires i < |rows| && j < |rows|
    requires SortsFirst(rows, i, j) && SortsFirst(rows, j, i)
    ensures i == j
  {
  }

  /** 'first': m_id, BD and sku come from the earliest row (in ascending date order) that
      has a value in that column, which need not be the latest row of the group. */
  lemma FirstSpec(rows: seq<Record>, f: Record -> Option<string>)
    ensures First(rows, f).None? <==> forall j :: 0 <= j < |rows| ==> f(rows[j]).None?
    ensures First(rows, f).Some? ==>
      exists i :: 0 <= i < |rows| && f(rows[i]) == First(rows, f)
        && forall j :: 0 <= j < |rows| && f(rows[j]).Some? ==> SortsFirst(rows, i, j)
  {
    EarliestWithSpec(rows, f);
  }

  /** Every output row holds its group's latest order date and the first known m_id,
      BD and sku of the group in sorted order. */
  lemma SummaryRow(rows: seq<Record>, k: Key)
    requires HasKey(rows, k)
    requires forall j :: 0 <= j < |rows| ==> rows[j].date.Some?
    ensures var g := Members(rows, k);
      var s := Summarise(rows, k);
      g != [] && s.lastDate.Some?
      && (forall j :: 0 <= j < |g| ==> g[j].date.Some? && g[j].date.value <= s.lastDate.value)
      && (exists j :: 0 <= j < |g| && g[j].date == s.lastDate)
      && (forall j :: 0 <= j < |g| ==> KeyOf(g[j]) == Some(k))
      && (s.mId.None? <==> forall j :: 0 <= j < |g| ==> g[j].mId.None?)
  {
    var g := Members(rows, k);
    var i :| 0 <= i < |rows| && KeyOf(rows[i]) == Some(k);
    FilterMember(rows, InGroup(k), rows[i]);
    FilterSound(rows, InGroup(k));
    MaxDateSpec(g);
    FirstSpec(g, MIdOf);
  }

  /** The processing succeeds with rows exactly when some dated row of a matched product
      has both a customer and a product name. */
  lemma MatchedIff(baseName: string, baseColumns: seq<string>, baseRows: seq<Record>,
                   matchName: string, matchColumns: seq<string>, matchProducts: seq<Option<string>>)
    requires Format(baseName).Some? && Format(matchName).Some?
    requires HasColumns(BaseColumns, baseColumns) && ProductColumn in matchColumns
    ensures Run(baseName, baseColumns, baseRows, matchName, matchColumns, matchProducts).Matched? <==>
      exists x :: x in baseRows && x.date.Some? && x.product in matchProducts && KeyOf(x).Some?
  {
    var m := MatchedRows(baseRows, matchProducts);
    if exists x :: x in baseRows && x.date.Some? && x.product in matchProducts && KeyOf(x).Some? {
      var x :| x in baseRows && x.date.Some? && x.product in matchProducts && KeyOf(x).Some?;
      MatchedRowsIff(baseRows, matchProducts, x);
      var i :| 0 <= i < |m| && m[i] == x;
      assert HasKey(m, KeyOf(x).value);
      assert KeyOf(x).value in GroupKeys(m);
    } else if GroupKeys(m) != [] {
      assert HasKey(m, GroupKeys(m)[0]);
      var i :| 0 <= i < |m| && KeyOf(m[i]) == Some(GroupKeys(m)[0]);
      MatchedRowsIff(baseRows, matchProducts, m[i]);
    }
  }
}
