/** The customer/product gap analysis of app004.py: within each main business type
    (主营类型), a product is popular when it has at least `minCount` rows of that type;
    every customer of the type is listed with each popular product it has not bought,
    or with a single "无" row when it lacks none. */
module MissingProducts {
  import opened Common

  const RequiredColumns: seq<string> := ["客户名称", "主营类型", "商品名称", "商品分类"]
  const NoneBought: string := "无"
  const UnknownCategory: string := "未知分类"

  /** A row of the uploaded table; a field is None when the cell is empty. */
  datatype RawRow = RawRow(customer: Option<string>, mainType: Option<string>,
                           name: Option<string>, category: Option<string>)

  /** A row after dropna on the four required columns. */
  datatype Row = Row(customer: string, mainType: string, name: string, category: string)

  /** A result row: 客户名称, 主营类型, 未购买的商品, 商品分类. */
  datatype ResultRow = ResultRow(customer: string, mainType: string, product: string, category: string)

  /** A row of the groupby on (主营类型, 客户名称) with the set of products bought. */
  datatype Group = Group(mainType: string, customer: string, products: set<string>)

  /** main_type_dict as Python builds it: an insertion-ordered dict from main type to
      an insertion-ordered dict from customer to product set. */
  datatype CustomerEntry = CustomerEntry(customer: string, products: set<string>)
  datatype TypeEntry = TypeEntry(mainType: string, customers: seq<CustomerEntry>)

  datatype Outcome =
    | UnsupportedFile
    | MissingColumn
    | Analysed(rows: seq<ResultRow>)

  // ---------------------------------------------------------------------------
  // Loading and preprocessing
  // ---------------------------------------------------------------------------

  /** Excel (.xlsx, .xls) and CSV files are read; any other name is refused. */
  predicate Readable(fileName: string)
  {
    EndsWith(fileName, ".xlsx") || EndsWith(fileName, ".xls") || EndsWith(fileName, ".csv")
  }

  predicate Complete(r: RawRow)
  {
    r.customer.Some? && r.mainType.Some? && r.name.Some? && r.category.Some?
  }

  function AsRow(r: RawRow): Row
    requires Complete(r)
  {
    Row(r.customer.value, r.mainType.value, r.name.value, r.category.value)
  }

  /** dropna on the required columns. */
  function DropMissing(raws: seq<RawRow>): (rows: seq<Row>)
    ensures |rows| <= |raws|
    ensures forall row :: row in rows <==> exists r :: r in raws && Complete(r) && AsRow(r) == row
  {
    if raws == [] then []
    else
      var rest := DropMissing(raws[1..]);
      assert forall r :: r in raws <==> r == raws[0] || r in raws[1..];
      if Complete(raws[0]) then [AsRow(raws[0])] + rest else rest
  }

  // ---------------------------------------------------------------------------
  // Product categories and popularity (pure pandas steps)
  // ---------------------------------------------------------------------------

  function NameCategory(r: Row): (string, string) { (r.name, r.category) }

  /** Builds a dict from (name, category) pairs; a later pair overwrites an earlier one. */
  function PairsToDict(pairs: seq<(string, string)>): (m: map<string, string>)
    ensures forall n :: n in m <==> exists i :: 0 <= i < |pairs| && pairs[i].0 == n
  {
    if pairs == [] then map[]
    else
      var init := pairs[..|pairs| - 1];
      var last := pairs[|pairs| - 1];
      assert forall i :: 0 <= i < |init| ==> init[i] == pairs[i];
      PairsToDict(init)[last.0 := last.1]
  }

  /** product_category_mapping: drop_duplicates on (商品名称, 商品分类), then to_dict. */
  function CategoryMap(rows: seq<Row>): map<string, string>
  {
    PairsToDict(Distinct(MapSeq(rows, NameCategory)))
  }

  predicate OfTypeNamed(r: Row, mainType: string, name: string)
  {
    r.mainType == mainType && r.name == name
  }

  function OfTypeNamedMask(mainType: string, name: string): Row -> bool
  {
    (r: Row) => OfTypeNamed(r, mainType, name)
  }

  /** purchase_count: the number of rows of a main type naming a product. */
  function PurchaseCount(rows: seq<Row>, mainType: string, name: string): nat
  {
    |Filter(rows, OfTypeNamedMask(mainType, name))|
  }

  /** The popular products of one main type. */
  function PopularIn(rows: seq<Row>, minCount: int, mainType: string): set<string>
  {
    set r | r in rows && r.mainType == mainType && PurchaseCount(rows, mainType, r.name) >= minCount :: r.name
  }

  /** main_type_popular_products: only main types with some popular product are keys. */
  function PopularMap(rows: seq<Row>, minCount: int): map<string, set<string>>
  {
    map mt | mt in (set r | r in rows :: r.mainType) && PopularIn(rows, minCount, mt) != {} :: PopularIn(rows, minCount, mt)
  }

  function TypeCustomer(r: Row): (string, string) { (r.mainType, r.customer) }

  /** The products one customer bought within one main type. */
  function Bought(rows: seq<Row>, mainType: string, customer: string): set<string>
  {
    set r | r in rows && r.mainType == mainType && r.customer == customer :: r.name
  }

  function GroupOf(rows: seq<Row>): ((string, string)) -> Group
  {
    (k: (string, string)) => Group(k.0, k.1, Bought(rows, k.0, k.1))
  }

  /** grouped: one row per (主营类型, 客户名称) present, with its product set. */
  function Grouped(rows: seq<Row>): seq<Group>
  {
    MapSeq(Distinct(MapSeq(rows, TypeCustomer)), GroupOf(rows))
  }

  // ---------------------------------------------------------------------------
  // main_type_dict (the loop at app004.py:72-79)
  // ---------------------------------------------------------------------------

  /** customers[customer] = products on an insertion-ordered dict. */
  function SetCustomer(cs: seq<CustomerEntry>, customer: string, products: set<string>): (r: seq<CustomerEntry>)
  {
    if cs == [] then [CustomerEntry(customer, products)]
    else if cs[0].customer == customer then [CustomerEntry(customer, products)] + cs[1..]
    else [cs[0]] + SetCustomer(cs[1..], customer, products)
  }

  /** The position of a main type among the dict's keys, or |d| when it is absent. */
  function FindType(d: seq<TypeEntry>, mainType: string): (k: nat)
    ensures k <= |d|
    ensures k < |d| ==> d[k].mainType == mainType
    ensures forall i :: 0 <= i < k ==> d[i].mainType != mainType
  {
    if d == [] then 0
    else if d[0].mainType == mainType then 0
    else 1 + FindType(d[1..], mainType)
  }

  /** One pass of the loop: create the main type's dict if needed, then set the customer. */
  function DictStep(d: seq<TypeEntry>, g: Group): seq<TypeEntry>
  {
    var k := FindType(d, g.mainType);
    var d1 := if k == |d| then d + [TypeEntry(g.mainType, [])] else d;
    d1[k := d1[k].(customers := SetCustomer(d1[k].customers, g.customer, g.products))]
  }

  function MainTypeDict(grouped: seq<Group>): seq<TypeEntry>
  {
    if grouped == [] then []
    else DictStep(MainTypeDict(grouped[..|grouped| - 1]), grouped[|grouped| - 1])
  }

  method BuildMainTypeDict(grouped: seq<Group>) returns (d: seq<TypeEntry>)
    ensures d == MainTypeDict(grouped)
  {
    d := [];
    var i := 0;
    while i < |grouped|
      invariant 0 <= i <= |grouped|
      invariant d == MainTypeDict(grouped[..i])
    {
      var g := grouped[i];
      var k := FindType(d, g.mainType);
      if k == |d| {
        d := d + [TypeEntry(g.mainType, [])];
      }
      d := d[k := d[k].(customers := SetCustomer(d[k].customers, g.customer, g.products))];
      assert grouped[..i + 1][..i] == grouped[..i];
      i := i + 1;
    }
    assert grouped[..i] == grouped;
  }

  /** The products stored for (main type, customer), if any. */
  function Lookup(d: seq<TypeEntry>, mainType: string, customer: string): Option<set<string>>
  {
    var k := FindType(d, mainType);
    if k == |d| then None else LookupCustomer(d[k].customers, customer)
  }

  function LookupCustomer(cs: seq<CustomerEntry>, customer: string): Option<set<string>>
  {
    if cs == [] then None
    else if cs[0].customer == customer then Some(cs[0].products)
    else LookupCustomer(cs[1..], customer)
  }

  // ---------------------------------------------------------------------------
  // The result rows (the loop at app004.py:82-106)
  // ---------------------------------------------------------------------------

  function MissingRow(customer: string, mainType: string, category: map<string, string>): string -> ResultRow
  {
    (p: string) => ResultRow(customer, mainType, p, Get(category, p, UnknownCategory))
  }

  /** The rows of one customer: its missing products in sorted order, or one "无" row. */
  ghost function CustomerRows(mainType: string, e: CustomerEntry, popular: set<string>,
                              category: map<string, string>): seq<ResultRow>
  {
    var missing := popular - e.products;
    if missing != {} then MapSeq(SortedSet(missing), MissingRow(e.customer, mainType, category))
    else [ResultRow(e.customer, mainType, NoneBought, "")]
  }

  ghost function TypeRows(mainType: string, cs: seq<CustomerEntry>, popular: set<string>,
                          category: map<string, string>): seq<ResultRow>
  {
    if cs == [] then []
    else TypeRows(mainType, cs[..|cs| - 1], popular, category) + CustomerRows(mainType, cs[|cs| - 1], popular, category)
  }

  ghost function ResultRows(d: seq<TypeEntry>, popular: map<string, set<string>>,
                            category: map<string, string>): seq<ResultRow>
  {
    if d == [] then []
    else
      var last := d[|d| - 1];
      ResultRows(d[..|d| - 1], popular, category) + TypeRows(last.mainType, last.customers, Get(popular, last.mainType, {}), category)
  }

  /** The result table of a preprocessed input. */
  ghost function Report(rows: seq<Row>, minCount: int): seq<ResultRow>
  {
    ResultRows(MainTypeDict(Grouped(rows)), PopularMap(rows, minCount), CategoryMap(rows))
  }

  /** The rows of one customer, from sorted(missing_products). */
  method CustomerResult(mainType: string, e: CustomerEntry, popular: set<string>, category: map<string, string>)
    returns (rows: seq<ResultRow>)
    ensures rows == CustomerRows(mainType, e, popular, category)
  {
    var missing := popular - e.products;
    if missing == {} {
      return [ResultRow(e.customer, mainType, NoneBought, "")];
    }
    var sorted := SortSet(missing);
    rows := [];
    var k := 0;
    while k < |sorted|
      invariant 0 <= k <= |sorted|
      invariant rows == MapSeq(sorted[..k], MissingRow(e.customer, mainType, category))
    {
      rows := rows + [ResultRow(e.customer, mainType, sorted[k], Get(category, sorted[k], UnknownCategory))];
      k := k + 1;
    }
    assert sorted[..k] == sorted;
  }

  /** The rows of every customer of one main type, in the dict's order. */
  method TypeResult(mainType: string, customers: seq<CustomerEntry>, popular: set<string>, category: map<string, string>)
    returns (rows: seq<ResultRow>)
    ensures rows == TypeRows(mainType, customers, popular, category)
  {
    rows := [];
    var j := 0;
    while j < |customers|
      invariant 0 <= j <= |customers|
      invariant rows == TypeRows(mainType, customers[..j], popular, category)
    {
      var more := CustomerResult(mainType, customers[j], popular, category);
      rows := rows + more;
      assert customers[..j + 1][..j] == customers[..j];
      j := j + 1;
    }
    assert customers[..j] == customers;
  }

  method EmitResults(d: seq<TypeEntry>, popular: map<string, set<string>>, category: map<string, string>)
    returns (result: seq<ResultRow>)
    ensures result == ResultRows(d, popular, category)
  {
    result := [];
    var i := 0;
    while i < |d|
      invariant 0 <= i <= |d|
      invariant result == ResultRows(d[..i], popular, category)
    {
      var more := TypeResult(d[i].mainType, d[i].customers, Get(popular, d[i].mainType, {}), category);
      result := result + more;
      assert d[..i + 1][..i] == d[..i];
      i := i + 1;
    }
    assert d[..i] == d;
  }

  /** The whole run: file type, required columns, then the analysis. */
  method Analyze(fileName: string, columns: seq<string>, raws: seq<RawRow>, minCount: int)
    returns (r: Outcome)
    ensures r.UnsupportedFile? <==> !Readable(fileName)
    ensures r.MissingColumn? <==> Readable(fileName) && !HasColumns(RequiredColumns, columns)
    ensures r.Analysed? ==> r.rows == Report(DropMissing(raws), minCount)
  {
    if !Readable(fileName) {
      return UnsupportedFile;
    }
    if MissingColumns(RequiredColumns, columns) != [] {
      return MissingColumn;
    }
    var rows := DropMissing(raws);
    var category := CategoryMap(rows);
    var popular := PopularMap(rows, minCount);
    var d := BuildMainTypeDict(Grouped(rows));
    var result := EmitResults(d, popular, category);
    return Analysed(result);
  }

  // ---------------------------------------------------------------------------
  // Properties
  // ---------------------------------------------------------------------------

  /** With a threshold of at least one, a product is popular for a main type exactly
      when that type has at least `minCount` rows naming it. */
  lemma PopularIff(rows: seq<Row>, minCount: int, mainType: string, name: string)
    requires minCount >= 1
    ensures name in PopularIn(rows, minCount, mainType) <==> PurchaseCount(rows, mainType, name) >= minCount
  {
    var named := Filter(rows, OfTypeNamedMask(mainType, name));
    if PurchaseCount(rows, mainType, name) >= minCount {
      assert named[0] in named;
      FilterMember(rows, OfTypeNamedMask(mainType, name), named[0]);
      assert named[0] in rows && named[0].mainType == mainType && named[0].name == name;
    }
  }

  /** main_type_popular_products.get(main_type, set()) is the type's popular set. */
  lemma PopularGet(rows: seq<Row>, minCount: int, mainType: string)
    ensures Get(PopularMap(rows, minCount), mainType, {}) == PopularIn(rows, minCount, mainType)
  {
    if PopularIn(rows, minCount, mainType) != {} {
      var name :| name in PopularIn(rows, minCount, mainType);
      var r :| r in rows && r.mainType == mainType && r.name == name;
      assert mainType in (set r | r in rows :: r.mainType);
    }
  }

  /** A later (name, category) pair overwrites an earlier one in the dict. */
  lemma {:induction false} PairsToDictLast(pairs: seq<(string, string)>, i: nat)
    requires i < |pairs|
    requires forall j :: i < j < |pairs| ==> pairs[j].0 != pairs[i].0
    ensures PairsToDict(pairs)[pairs[i].0] == pairs[i].1
  {
    if i < |pairs| - 1 {
      var init := pairs[..|pairs| - 1];
      assert init[i] == pairs[i];
      PairsToDictLast(init, i);
    }
  }

  /** If some pair names `name`, one of them is the last such pair. */
  lemma {:induction false} LastPairExists(pairs: seq<(string, string)>, name: string)
    requires exists i :: 0 <= i < |pairs| && pairs[i].0 == name
    ensures exists i :: 0 <= i < |pairs| && pairs[i].0 == name && forall j :: i < j < |pairs| ==> pairs[j].0 != name
  {
    var n := |pairs| - 1;
    if pairs[n].0 != name {
      var init := pairs[..n];
      var i :| 0 <= i < |pairs| && pairs[i].0 == name;
      assert init[i].0 == name;
      LastPairExists(init, name);
      var k :| 0 <= k < n && init[k].0 == name && forall j :: k < j < n ==> init[j].0 != name;
      assert pairs[k].0 == name;
      forall j | k < j < |pairs| ensures pairs[j].0 != name {
        if j < n { assert pairs[j] == init[j]; }
      }
    }
  }

  /** Every product of the table, and no other name, has a category. */
  lemma CategoryMapDomain(rows: seq<Row>, name: string)
    ensures name in CategoryMap(rows) <==> exists r :: r in rows && r.name == name
  {
    var pairs := Distinct(MapSeq(rows, NameCategory));
    DistinctSpec(MapSeq(rows, NameCategory));
    if exists r :: r in rows && r.name == name {
      var r :| r in rows && r.name == name;
      var i :| 0 <= i < |rows| && rows[i] == r;
      assert MapSeq(rows, NameCategory)[i] == (name, r.category);
      assert (name, r.category) in pairs;
    }
    if name in CategoryMap(rows) {
      var i :| 0 <= i < |pairs| && pairs[i].0 == name;
      assert pairs[i] in MapSeq(rows, NameCategory);
      var k :| 0 <= k < |rows| && MapSeq(rows, NameCategory)[k] == pairs[i];
      assert rows[k] in rows;
    }
  }

  /** A product's category is the category of one of its own rows. */
  lemma CategoryMapSound(rows: seq<Row>, name: string)
    requires name in CategoryMap(rows)
    ensures exists r :: r in rows && r.name == name && r.category == CategoryMap(rows)[name]
  {
    var pairs := Distinct(MapSeq(rows, NameCategory));
    DistinctSpec(MapSeq(rows, NameCategory));
    LastPairExists(pairs, name);
    var i :| 0 <= i < |pairs| && pairs[i].0 == name && forall j :: i < j < |pairs| ==> pairs[j].0 != name;
    PairsToDictLast(pairs, i);
    assert pairs[i] in MapSeq(rows, NameCategory);
    var k :| 0 <= k < |rows| && MapSeq(rows, NameCategory)[k] == pairs[i];
    assert rows[k] in rows;
  }

  // main_type_dict

  predicate UniqueCustomers(cs: seq<CustomerEntry>)
  {
    forall i, j :: 0 <= i < j < |cs| ==> cs[i].customer != cs[j].customer
  }

  /** Keys are unique at both levels of the nested dict. */
  predicate WellFormed(d: seq<TypeEntry>)
  {
    (forall i, j :: 0 <= i < j < |d| ==> d[i].mainType != d[j].mainType)
    && forall i :: 0 <= i < |d| ==> UniqueCustomers(d[i].customers)
  }

  /** main_type_dict[mainType][customer] == products */
  predicate HasEntry(d: seq<TypeEntry>, mainType: string, customer: string, products: set<string>)
  {
    exists i :: 0 <= i < |d| && d[i].mainType == mainType && CustomerEntry(customer, products) in d[i].customers
  }

  /** The products of the last group with the given keys, if any. */
  function LastGroup(grouped: seq<Group>, mainType: string, customer: string): Option<set<string>>
  {
    if grouped == [] then None
    else
      var g := grouped[|grouped| - 1];
      if g.mainType == mainType && g.customer == customer then Some(g.products)
      else LastGroup(grouped[..|grouped| - 1], mainType, customer)
  }

  /** The entries after the first have other customers than the first, and unique ones. */
  lemma TailCustomers(cs: seq<CustomerEntry>)
    requires cs != [] && UniqueCustomers(cs)
    ensures UniqueCustomers(cs[1..])
    ensures forall e :: e in cs <==> e == cs[0] || e in cs[1..]
    ensures forall e :: e in cs[1..] ==> e.customer != cs[0].customer
  {
    forall e | e in cs[1..] ensures e.customer != cs[0].customer {
      var j :| 0 <= j < |cs[1..]| && cs[1..][j] == e;
      assert cs[j + 1] == e;
    }
    assert cs == [cs[0]] + cs[1..];
  }

  /** customers[customer] = products leaves that customer with the new products and every
      other customer as it was. */
  lemma {:induction false} SetCustomerMembers(cs: seq<CustomerEntry>, customer: string, products: set<string>)
    requires UniqueCustomers(cs)
    ensures forall e :: e in SetCustomer(cs, customer, products) <==>
      e == CustomerEntry(customer, products) || (e in cs && e.customer != customer)
  {
    if cs != [] {
      var tail := cs[1..];
      TailCustomers(cs);
      if cs[0].customer == customer {
        assert SetCustomer(cs, customer, products) == [CustomerEntry(customer, products)] + tail;
      } else {
        SetCustomerMembers(tail, customer, products);
        assert SetCustomer(cs, customer, products) == [cs[0]] + SetCustomer(tail, customer, products);
      }
    }
  }

  /** An entry in front of entries with other customers keeps the customers unique. */
  lemma ConsUnique(c: CustomerEntry, rest: seq<CustomerEntry>)
    requires UniqueCustomers(rest)
    requires forall e :: e in rest ==> e.customer != c.customer
    ensures UniqueCustomers([c] + rest)
  {
    var r := [c] + rest;
    forall i, j | 0 <= i < j < |r| ensures r[i].customer != r[j].customer {
      assert r[j] == rest[j - 1] && rest[j - 1] in rest;
      if i > 0 {
        assert r[i] == rest[i - 1];
      }
    }
  }

  /** customers[customer] = products keeps the customers unique. */
  lemma {:induction false} SetCustomerUnique(cs: seq<CustomerEntry>, customer: string, products: set<string>)
    requires UniqueCustomers(cs)
    ensures UniqueCustomers(SetCustomer(cs, customer, products))
  {
    if cs != [] {
      var tail := cs[1..];
      TailCustomers(cs);
      if cs[0].customer == customer {
        assert SetCustomer(cs, customer, products) == [CustomerEntry(customer, products)] + tail;
        ConsUnique(CustomerEntry(customer, products), tail);
      } else {
        SetCustomerUnique(tail, customer, products);
        SetCustomerMembers(tail, customer, products);
        assert SetCustomer(cs, customer, products) == [cs[0]] + SetCustomer(tail, customer, products);
        ConsUnique(cs[0], SetCustomer(tail, customer, products));
      }
    }
  }

  /** One pass of the loop keeps the keys unique and sets exactly one entry. */
  lemma DictStepSpec(d: seq<TypeEntry>, g: Group)
    requires WellFormed(d)
    ensures WellFormed(DictStep(d, g))
    ensures forall mt, c, p :: HasEntry(DictStep(d, g), mt, c, p) <==>
      (mt == g.mainType && c == g.customer && p == g.products)
      || (HasEntry(d, mt, c, p) && !(mt == g.mainType && c == g.customer))
  {
    var k := FindType(d, g.mainType);
    var d1 := if k == |d| then d + [TypeEntry(g.mainType, [])] else d;
    var r := DictStep(d, g);
    assert |d1| == |r| && k < |r|;
    assert forall i :: 0 <= i < |d| ==> d1[i] == d[i];
    assert forall i :: 0 <= i < |r| && i != k ==> r[i] == d1[i];
    assert d1[k].mainType == g.mainType;
    assert UniqueCustomers(d1[k].customers);
    SetCustomerMembers(d1[k].customers, g.customer, g.products);
    SetCustomerUnique(d1[k].customers, g.customer, g.products);
    assert r[k].customers == SetCustomer(d1[k].customers, g.customer, g.products);
    assert forall i :: 0 <= i < |r| && i != k ==> r[i].mainType != g.mainType;
    forall mt, c, p ensures HasEntry(r, mt, c, p) <==>
      (mt == g.mainType && c == g.customer && p == g.products)
      || (HasEntry(d, mt, c, p) && !(mt == g.mainType && c == g.customer))
    {
      var e := CustomerEntry(c, p);
      if HasEntry(r, mt, c, p) {
        var i :| 0 <= i < |r| && r[i].mainType == mt && e in r[i].customers;
        if i != k {
          assert r[i] == d[i];
        } else if !(c == g.customer && p == g.products) {
          assert e in d1[k].customers;
          assert d[k] == d1[k];
        }
      }
      if HasEntry(d, mt, c, p) && !(mt == g.mainType && c == g.customer) {
        var i :| 0 <= i < |d| && d[i].mainType == mt && e in d[i].customers;
        if i == k {
          assert e in r[k].customers;
        } else {
          assert r[i] == d[i];
        }
      }
      if mt == g.mainType && c == g.customer && p == g.products {
        assert e in r[k].customers;
      }
    }
  }

  /** main_type_dict holds, for each (main type, customer) in grouped, the products
      of its last group, and nothing else. */
  lemma {:induction false} MainTypeDictSpec(grouped: seq<Group>)
    ensures WellFormed(MainTypeDict(grouped))
    ensures forall mt, c, p :: HasEntry(MainTypeDict(grouped), mt, c, p) <==> LastGroup(grouped, mt, c) == Some(p)
  {
    if grouped != [] {
      var init := grouped[..|grouped| - 1];
      MainTypeDictSpec(init);
      DictStepSpec(MainTypeDict(init), grouped[|grouped| - 1]);
    }
  }

  /** When every group with the given keys carries `p`, the last one does. */
  lemma {:induction false} LastGroupOf(grouped: seq<Group>, mainType: string, customer: string, p: set<string>)
    requires forall g :: g in grouped && g.mainType == mainType && g.customer == customer ==> g.products == p
    ensures LastGroup(grouped, mainType, customer) ==
      if exists g :: g in grouped && g.mainType == mainType && g.customer == customer then Some(p) else None
  {
    if grouped != [] {
      var init := grouped[..|grouped| - 1];
      assert forall g :: g in grouped <==> g in init || g == grouped[|grouped| - 1];
      LastGroupOf(init, mainType, customer, p);
    }
  }

  /** Each group of the groupby carries the products its customer bought in its type. */
  lemma GroupedProducts(rows: seq<Row>, g: Group)
    requires g in Grouped(rows)
    ensures g.products == Bought(rows, g.mainType, g.customer)
  {
    var keys := Distinct(MapSeq(rows, TypeCustomer));
    var i :| 0 <= i < |Grouped(rows)| && Grouped(rows)[i] == g;
    assert g == GroupOf(rows)(keys[i]);
  }

  /** A (main type, customer) pair of the table has a group. */
  lemma PairHasGroup(rows: seq<Row>, r: Row)
    requires r in rows
    ensures exists g :: g in Grouped(rows) && g.mainType == r.mainType && g.customer == r.customer
  {
    var col := MapSeq(rows, TypeCustomer);
    var keys := Distinct(col);
    var grouped := Grouped(rows);
    DistinctSpec(col);
    var i :| 0 <= i < |rows| && rows[i] == r;
    assert col[i] == (r.mainType, r.customer) && col[i] in col;
    var k :| 0 <= k < |keys| && keys[k] == (r.mainType, r.customer);
    assert grouped[k] in grouped && grouped[k].mainType == r.mainType && grouped[k].customer == r.customer;
  }

  /** Every group is a (main type, customer) pair of the table. */
  lemma GroupHasPair(rows: seq<Row>, g: Group)
    requires g in Grouped(rows)
    ensures exists r :: r in rows && r.mainType == g.mainType && r.customer == g.customer
  {
    var col := MapSeq(rows, TypeCustomer);
    var keys := Distinct(col);
    var grouped := Grouped(rows);
    DistinctSpec(col);
    var i :| 0 <= i < |grouped| && grouped[i] == g;
    assert keys[i] == (g.mainType, g.customer) && keys[i] in keys;
    var j :| 0 <= j < |rows| && col[j] == keys[i];
    assert rows[j] in rows && rows[j].mainType == g.mainType && rows[j].customer == g.customer;
  }

  /** The groupby has a group for exactly the (main type, customer) pairs of the table. */
  lemma GroupedKeys(rows: seq<Row>, mainType: string, customer: string)
    ensures (exists g :: g in Grouped(rows) && g.mainType == mainType && g.customer == customer) <==>
      exists r :: r in rows && r.mainType == mainType && r.customer == customer
  {
    if exists r :: r in rows && r.mainType == mainType && r.customer == customer {
      var r :| r in rows && r.mainType == mainType && r.customer == customer;
      PairHasGroup(rows, r);
    }
    if exists g :: g in Grouped(rows) && g.mainType == mainType && g.customer == customer {
      var g :| g in Grouped(rows) && g.mainType == mainType && g.customer == customer;
      GroupHasPair(rows, g);
    }
  }

  /** In main_type_dict built from the groupby, a (main type, customer) pair present in
      the table maps to the set of products that customer bought in that type. */
  lemma GroupedDict(rows: seq<Row>, mainType: string, customer: string, p: set<string>)
    ensures HasEntry(MainTypeDict(Grouped(rows)), mainType, customer, p) <==>
      (exists r :: r in rows && r.mainType == mainType && r.customer == customer) && p == Bought(rows, mainType, customer)
  {
    var grouped := Grouped(rows);
    MainTypeDictSpec(grouped);
    forall g | g in grouped && g.mainType == mainType && g.customer == customer
      ensures g.products == Bought(rows, mainType, customer)
    {
      GroupedProducts(rows, g);
    }
    LastGroupOf(grouped, mainType, customer, Bought(rows, mainType, customer));
    GroupedKeys(rows, mainType, customer);
  }

  // result rows

  /** One customer's rows: a single "无" row with an empty category when nothing popular
      is missing; otherwise exactly the missing popular products, each with its category
      (or "未知分类"), in strictly ascending order. */
  lemma CustomerRowsFacts(mainType: string, e: CustomerEntry, popular: set<string>, category: map<string, string>)
    ensures |CustomerRows(mainType, e, popular, category)| >= 1
    ensures popular - e.products == {} ==>
      CustomerRows(mainType, e, popular, category) == [ResultRow(e.customer, mainType, NoneBought, "")]
    ensures popular - e.products != {} ==> forall r :: r in CustomerRows(mainType, e, popular, category) <==>
      r.customer == e.customer && r.mainType == mainType && r.product in popular && r.product !in e.products
      && r.category == Get(category, r.product, UnknownCategory)
    ensures popular - e.products != {} ==> forall i, j :: 0 <= i < j < |CustomerRows(mainType, e, popular, category)| ==>
      LexLess(CustomerRows(mainType, e, popular, category)[i].product, CustomerRows(mainType, e, popular, category)[j].product)
  {
    var missing := popular - e.products;
    if missing != {} {
      var sorted := SortedSet(missing);
      SortedSetSpec(missing);
      var rows := CustomerRows(mainType, e, popular, category);
      assert forall k :: 0 <= k < |rows| ==> rows[k] == MissingRow(e.customer, mainType, category)(sorted[k]);
      forall r ensures r in rows <==> (r.customer == e.customer && r.mainType == mainType && r.product in missing
                                        && r.category == Get(category, r.product, UnknownCategory))
      {
        if r in rows {
          var k :| 0 <= k < |rows| && rows[k] == r;
          assert sorted[k] in sorted;
        }
        if r.customer == e.customer && r.mainType == mainType && r.product in missing
          && r.category == Get(category, r.product, UnknownCategory) {
          var k :| 0 <= k < |sorted| && sorted[k] == r.product;
          assert rows[k] == r;
        }
      }
    }
  }

  lemma {:induction false} TypeRowsMember(mainType: string, cs: seq<CustomerEntry>, popular: set<string>,
                                          category: map<string, string>, r: ResultRow)
    ensures r in TypeRows(mainType, cs, popular, category) <==>
      exists e :: e in cs && r in CustomerRows(mainType, e, popular, category)
  {
    if cs != [] {
      var init := cs[..|cs| - 1];
      TypeRowsMember(mainType, init, popular, category, r);
      assert forall e :: e in cs <==> e in init || e == cs[|cs| - 1];
    }
  }

  /** A result row comes from exactly one step of the loops: some entry of main_type_dict. */
  lemma {:induction false} ResultRowsMember(d: seq<TypeEntry>, popular: map<string, set<string>>,
                                            category: map<string, string>, r: ResultRow)
    ensures r in ResultRows(d, popular, category) <==>
      exists mt, c, p :: HasEntry(d, mt, c, p) && r in CustomerRows(mt, CustomerEntry(c, p), Get(popular, mt, {}), category)
  {
    if d != [] {
      var init := d[..|d| - 1];
      var last := d[|d| - 1];
      ResultRowsMember(init, popular, category, r);
      TypeRowsMember(last.mainType, last.customers, Get(popular, last.mainType, {}), category, r);
      forall mt, c, p ensures HasEntry(d, mt, c, p) <==>
        (HasEntry(init, mt, c, p) || (mt == last.mainType && CustomerEntry(c, p) in last.customers))
      {
        if HasEntry(d, mt, c, p) {
          var i :| 0 <= i < |d| && d[i].mainType == mt && CustomerEntry(c, p) in d[i].customers;
          if i < |d| - 1 { assert init[i] == d[i]; }
        }
        if HasEntry(init, mt, c, p) {
          var i :| 0 <= i < |init| && init[i].mainType == mt && CustomerEntry(c, p) in init[i].customers;
          assert d[i] == init[i];
        }
      }
      if exists e :: e in last.customers && r in CustomerRows(last.mainType, e, Get(popular, last.mainType, {}), category) {
        var e :| e in last.customers && r in CustomerRows(last.mainType, e, Get(popular, last.mainType, {}), category);
        assert e == CustomerEntry(e.customer, e.products);
        assert HasEntry(d, last.mainType, e.customer, e.products);
      }
    }
  }

  /** Every reported row belongs to a (main type, customer) pair of the table and is
      either a popular product of that type the customer never bought, with its
      category, or the single "无" row of a customer who lacks nothing popular. */
  lemma ReportSound(rows: seq<Row>, minCount: int, r: ResultRow)
    requires r in Report(rows, minCount)
    ensures exists row :: row in rows && row.mainType == r.mainType && row.customer == r.customer
    ensures var missing := PopularIn(rows, minCount, r.mainType) - Bought(rows, r.mainType, r.customer);
      || (r.product in missing && r.category == Get(CategoryMap(rows), r.product, UnknownCategory))
      || (missing == {} && r.product == NoneBought && r.category == "")
  {
    ResultRowsMember(MainTypeDict(Grouped(rows)), PopularMap(rows, minCount), CategoryMap(rows), r);
    var mt, c, p :| HasEntry(MainTypeDict(Grouped(rows)), mt, c, p)
      && r in CustomerRows(mt, CustomerEntry(c, p), Get(PopularMap(rows, minCount), mt, {}), CategoryMap(rows));
    GroupedDict(rows, mt, c, p);
    PopularGet(rows, minCount, mt);
    CustomerRowsFacts(mt, CustomerEntry(c, p), PopularIn(rows, minCount, mt), CategoryMap(rows));
  }

  /** Every (main type, customer) pair of the table is reported: each missing popular
      product with its category, or the "无" row when none is missing. */
  lemma ReportComplete(rows: seq<Row>, minCount: int, row: Row)
    requires row in rows
    ensures var missing := PopularIn(rows, minCount, row.mainType) - Bought(rows, row.mainType, row.customer);
      && (forall p :: p in missing ==>
            ResultRow(row.customer, row.mainType, p, Get(CategoryMap(rows), p, UnknownCategory)) in Report(rows, minCount))
      && (missing == {} ==> ResultRow(row.customer, row.mainType, NoneBought, "") in Report(rows, minCount))
  {
    var mt, c := row.mainType, row.customer;
    var p := Bought(rows, mt, c);
    GroupedDict(rows, mt, c, p);
    PopularGet(rows, minCount, mt);
    var e := CustomerEntry(c, p);
    CustomerRowsFacts(mt, e, PopularIn(rows, minCount, mt), CategoryMap(rows));
    forall r | r in CustomerRows(mt, e, PopularIn(rows, minCount, mt), CategoryMap(rows))
      ensures r in Report(rows, minCount)
    {
      ResultRowsMember(MainTypeDict(Grouped(rows)), PopularMap(rows, minCount), CategoryMap(rows), r);
    }
  }
}
