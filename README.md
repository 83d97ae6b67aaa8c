# Sales-analysis tools of a fresh-produce distributor, in Dafny

The repository is a set of small Streamlit pages that a fresh-produce distributor's
sales team uses on exported order tables. This project models the analysis logic of
each page and proves what each page promises:

- `fresh_fruit_bonus.dfy` (app009.py): the fresh-fruit commission. Sales are joined with
  keyword/spec rules, each pair is priced with the rule whose spec matches, or with the
  keyword's "其他" fallback. Sales are split into a bonus window and a 90-day baseline,
  de-duplicated per customer/keyword/product and labelled 存量 or 增量. Amounts are
  rounded to cents and rolled up per BD with a 总计 row.
- `standard_bonus.dfy` (app008.py): the standard-product commission. The join is on name
  and SKU, the 90-day history check labels rows, amounts are unrounded, and per-BD sums
  get a column-sum 总计 row.
- `missing_products.dfy` (app004.py): the popular products of each main business type that
  a customer has not bought, one row each in sorted order, or a "无" row.
- `columns.dfy`, `purchases.dfy`, `inactive_by_mapping.dfy` (app007.py) and
  `inactive_by_customer.dfy` (app002.py): column-alias resolution, renamed in place; the
  latest purchase per customer/product; and the pairs inactive for longer than a threshold.
- `last_order.dfy` (app001.py): the file-extension dispatch, and per customer/product the
  latest order date and first known m_id, BD and sku.
- `purchase_cycle.dfy` (app005.py): the gaps between a customer's orders of one product,
  their mean/min/max and the predicted next purchase.
- `gmv_targets.dfy` (app006.py): monthly average GMV, its min-rank within a BD, the rank
  window and the uplifted target.
- `recipe_cost.dfy` (app000.py): unit conversion to grams, and a recipe object whose
  ingredient list grows in place, with a loop that totals the cost.
- `quote.dfy` (baojia.py): product-name cleaning, the fuzzy-match gate, the margin
  normalisation, the quote cost/(1 - margin), the result table built row by row, and the
  weighted or grouped combined margin.
- `month_over_month.dfy` (app003.py): the split into regular and special items, the
  guarded 环比 percentage, and the report filled in place dimension by dimension.
- `common.dfy`: the pandas and Python vocabulary the pages share. It covers substring
  tests, whitespace, `round(x, 2)`, sums and group sums, keep-first `drop_duplicates`,
  boolean masks and Python's string order with `sorted`.

Dates are whole day numbers (or month indices), and an unparseable date is `None`.
Money, quantities and rates are exact reals. Python's `round(x, 2)` is rounding to the
nearest cent with ties to the even cent.

## Model

| member | source | states |
|---|---|---|
| FreshFruitBonus.DropUnparsedDates | app009.py:30-34 | the sales rows whose order date parsed, in their order, each carrying its parsed date; the rows whose date did not parse are the ones dropped |
| FreshFruitBonus.LoadSales | app009.py:9-36 | loading the sales table fails exactly when the file is not .csv/.xls/.xlsx or a required column is missing; otherwise it yields the rows with unparsed dates dropped |
| FreshFruitBonus.LoadRules | app009.py:9-36 | loading the bonus table fails exactly when the file is not .csv/.xls/.xlsx or one of 关键词/规格/存量奖金/增量奖金 is missing; otherwise the rules are returned unchanged |
| FreshFruitBonus.Run | app009.py:43-66 | the run stops with a load failure exactly when one of the two tables fails to load, and it rejects the period exactly when both load and the start date is not before the end date |
| FreshFruitBonus.Analyze | app009.py:64-186 | the period is rejected exactly when the start date is not before the end date; the page crashes exactly when no pair survives the keyword and 鲜果 filters (the keyword and spec applies raise on their NaN probe row over an empty frame); it warns of no matches exactly when pairs survive but the analysis table is empty; it reports exactly when the analysis table has rows, and the report is built from the bonus lines of the period, possibly none |
| FreshFruitBonus.EmptyMatchCrashes | app009.py:75-81 | with a valid period, an empty sales or bonus table, or a sales table without 鲜果 rows, makes the analysis crash |
| FreshFruitBonus.EmptyPeriodReport | app009.py:118-186 | analysis rows none of which lies in the bonus period give a report with no detail and no BD rows and a 总计 row of zeros |
| FreshFruitBonus.CrossJoinMember | app009.py:76 | a (sale, rule) pair is in the cross join exactly when the sale is in the sales table and the rule is in the bonus table |
| FreshFruitBonus.FreshPairMember | app009.py:72-86 | a pair survives the keyword and 鲜果 filters exactly when it pairs a sale with a rule, the keyword occurs in the product name and the category is 鲜果 |
| FreshFruitBonus.FallbackMember | app009.py:102-108 | a fallback row comes from a "其他" rule and an unmatched pair of the same keyword, and every such combination yields one |
| FreshFruitBonus.MatchedMember | app009.py:88-98 | the spec-matched part of the analysis table holds exactly the fresh-fruit keyword hits whose cleaned spec occurs in the cleaned description |
| FreshFruitBonus.FallbackPartMember | app009.py:99-108 | with "其他" rules present, the fallback part holds exactly the fresh-fruit sales priced by a "其他" rule of a keyword whose own spec missed |
| FreshFruitBonus.AnalysisMember | app009.py:98-115 | the analysis table holds exactly the spec-matched rows and the fallback rows; without "其他" rules there are no fallback rows |
| FreshFruitBonus.WindowRowsSound | app009.py:121-137 | every row a window keeps is an analysis row inside that window |
| FreshFruitBonus.WindowRowsUniqueKeys | app009.py:131-137 | a window keeps at most one row per 唯一标识 |
| FreshFruitBonus.WindowRowsCover | app009.py:131-137 | every 唯一标识 of an analysis row inside the window is kept by some row |
| FreshFruitBonus.WindowsDisjoint | app009.py:118-129 | no row is kept by both the bonus window and the 90-day baseline window before it |
| FreshFruitBonus.BonusRowsInWindow | app009.py:121-124 | every bonus-period row is an analysis row dated between the start and end dates, both included |
| FreshFruitBonus.ExistingKeysIff | app009.py:126-139 | a 唯一标识 is in the baseline set exactly when an analysis row dated in the 90 days before the start carries it |
| FreshFruitBonus.ClassificationIff | app009.py:139-148 | each bonus line is a bonus-period analysis row; it is 存量 exactly when a baseline row has its 唯一标识, and its amount is the quantity times the matching rate rounded to cents |
| FreshFruitBonus.BonusKeysUnique | app009.py:131-133 | the bonus lines carry one row per 唯一标识, and every 唯一标识 seen in the bonus period has a line |
| FreshFruitBonus.FallbackRowsAreFallback | app009.py:104-108 | every row of the fallback part is a fallback row, not a spec-matched one |
| FreshFruitBonus.AnalysisMatchedFirst | app009.py:109 | in the analysis table every fallback row comes after every spec-matched row |
| FreshFruitBonus.KeptRowPrefersMatched | app009.py:109-133 | when fallback rows come last, the row kept for a 唯一标识 is spec-matched whenever the key has a spec-matched row in the period |
| FreshFruitBonus.SpecMatchedWins | app009.py:98-133 | on the real analysis table, the specific rule wins over the "其他" fallback for a 唯一标识 that has a spec match |
| FreshFruitBonus.GroupOfOneLine | app009.py:156-160 | with one line per 唯一标识, each detail group holds a single line, so its summed quantity and rounded bonus are that line's |
| FreshFruitBonus.DetailIsPositiveLines | app009.py:156-161 | with one line per 唯一标识, the detail table is exactly the lines whose bonus is positive |
| FreshFruitBonus.BonusLinesShape | app009.py:131-148 | the bonus lines have unique 唯一标识 and whole-cent amounts |
| FreshFruitBonus.DetailCents | app009.py:145-161 | every detail bonus is a whole number of cents |
| FreshFruitBonus.RoundedRowExact | app009.py:164-171 | rounding whole-cent sums changes nothing, and their 共计 is their exact sum |
| FreshFruitBonus.BdRowExact | app009.py:164-171 | a BD's row holds the exact masked sums of its 存量 and 增量 detail bonuses, and 共计 is their sum |
| FreshFruitBonus.SummaryColumnSums | app009.py:164-169 | summing the 存量 (or 增量) column over BD rows adds up each BD's detail bonuses |
| FreshFruitBonus.SummaryExact | app009.py:164-174 | each BD summary row holds the exact sums of that BD's 存量 and 增量 detail bonuses, and 共计 is their sum |
| FreshFruitBonus.SummaryColumns | app009.py:164-178 | the 存量 and 增量 columns of the BD rows sum to the corresponding columns of the detail table |
| FreshFruitBonus.SummaryTotalColumn | app009.py:171 | the 共计 column sums to the 存量 and 增量 columns together |
| FreshFruitBonus.TotalExact | app009.py:176-186 | the 总计 row is labelled 总计 and holds the column sums of the detail table, which equal those of the BD rows |
| FreshFruitBonus.ReportOfAnalysis | app009.py:117-186 | for an analysis run, the detail rows are exactly the positive bonus lines of the classified bonus period |
| FreshFruitBonus.IdentityKeyCollision | app009.py:131-137 | two different customers can share a 唯一标识 when a field contains "_", so the later row is discarded |
| StandardBonus.Analyze | app008.py:50-160 | the analysis stops with the missing-file message exactly when one of the two uploads is absent; it fails with the error message exactly when a column it reads is not provided by the merge (sku_id, 商品名称 in both tables, SKU, and each of 订单日期, 客户名称, 销量, bd_name, 商品描述, 存量佣金, 增量佣金 in exactly one table); otherwise the detail is the period rows, the summary is grouped from them and the 总计 row sums it |
| StandardBonus.EmptyPeriodReport | app008.py:67-115 | with every column found and no merged row in the period, the result is an empty report with a 总计 row of zeros |
| StandardBonus.JoinMember | app008.py:62-64 | a merged row is exactly a sales row and a bonus row with equal 商品名称 and equal numeric SKU, unparsed SKUs matching each other |
| StandardBonus.CheckHistoryIff | app008.py:74-81 | check_history says 存量 exactly when some merged row of the same customer and product is dated in the 90 days before the start date |
| StandardBonus.PeriodRowFacts | app008.py:67-87 | each period row is a merged row dated between the start and end dates, labelled 存量 exactly when it has an earlier purchase, and its 奖金 is the quantity times that label's commission, unrounded |
| StandardBonus.PeriodComplete | app008.py:67-71 | every merged row dated in the period appears among the period rows |
| StandardBonus.BdTotalSplits | app008.py:91-95 | for each BD, 总奖金 is 存量奖金 plus 增量奖金 |
| StandardBonus.TotalRowFacts | app008.py:97-114 | the 总计 row holds the sums of 奖金, of the 存量 bonuses and of the 增量 bonuses over all period rows, with 总奖金 their sum; 涉及BD人数 is the number of distinct BDs |
| StandardBonus.SummaryColumns | app008.py:91-98 | summing a summary column over the BD rows adds up each BD's period-row bonuses |
| StandardBonus.SummaryCoversBds | app008.py:91-95 | every BD of a period row has a summary row |
| StandardBonus.SummaryBdsSound | app008.py:91-95 | every summary row belongs to the BD of some period row, and no BD has two rows |
| MissingProducts.DropMissing | app004.py:47-53 | the preprocessed rows are exactly the rows with all four required fields present, never more than the input |
| MissingProducts.PairsToDict | app004.py:56-57 | the dict built from (商品名称, 商品分类) pairs has a key for exactly the names that occur in the pairs |
| MissingProducts.FindType | app004.py:77 | the position of a main type among main_type_dict's keys: the first with that name, or the end when none has it |
| MissingProducts.BuildMainTypeDict | app004.py:72-79 | the loop over grouped builds the nested dict that MainTypeDict specifies |
| MissingProducts.CustomerResult | app004.py:88-106 | one customer's rows are those CustomerRows specifies: the sorted missing products, or the single "无" row |
| MissingProducts.TypeResult | app004.py:84-106 | the rows of one main type are each customer's rows in the dict's order |
| MissingProducts.EmitResults | app004.py:82-106 | the nested loops produce the result table ResultRows specifies |
| MissingProducts.Analyze | app004.py:19-108 | an unsupported file name is refused, a missing required column is reported when the file is readable, and otherwise the result is the report of the preprocessed rows |
| MissingProducts.PopularIff | app004.py:59-63 | with a threshold of at least one, a product is popular for a main type exactly when its purchase count in that type reaches the threshold |
| MissingProducts.PopularGet | app004.py:66-86 | main_type_popular_products.get(main_type, set()) is that type's popular set, including the empty set for a type without one |
| MissingProducts.PairsToDictLast | app004.py:56-57 | the last pair naming a product decides its category |
| MissingProducts.LastPairExists | app004.py:56-57 | a product named by some pair has a last such pair |
| MissingProducts.CategoryMapDomain | app004.py:56-57 | exactly the products of the table have a category |
| MissingProducts.CategoryMapSound | app004.py:56-57 | a product's category is the category of one of its own rows |
| MissingProducts.TailCustomers | app004.py:79 | the entries after the first of a customer dict have other customers and are unique |
| MissingProducts.SetCustomerMembers | app004.py:79 | customers[customer] = products leaves that customer with the new products and keeps every other entry |
| MissingProducts.ConsUnique | app004.py:79 | an entry placed before entries of other customers keeps the customers unique |
| MissingProducts.SetCustomerUnique | app004.py:79 | customers[customer] = products keeps the customers unique |
| MissingProducts.DictStepSpec | app004.py:73-79 | one pass of the loop keeps the keys unique at both levels and changes exactly the entry for the group's main type and customer |
| MissingProducts.MainTypeDictSpec | app004.py:72-79 | main_type_dict has unique keys, and holds for each (main type, customer) the products of the last group with those keys |
| MissingProducts.LastGroupOf | app004.py:72-79 | when every group with given keys carries the same products, the last one carries them, and there is none when no group has those keys |
| MissingProducts.GroupedProducts | app004.py:69 | each group of the groupby carries the set of products its customer bought within its main type |
| MissingProducts.PairHasGroup | app004.py:69 | each (main type, customer) pair of the table has a group |
| MissingProducts.GroupHasPair | app004.py:69 | each group is a (main type, customer) pair of the table |
| MissingProducts.GroupedKeys | app004.py:69 | the groupby has a group for exactly the (main type, customer) pairs of the table |
| MissingProducts.GroupedDict | app004.py:69-79 | main_type_dict maps a pair present in the table, and only such a pair, to the products that customer bought in that type |
| MissingProducts.CustomerRowsFacts | app004.py:88-106 | a customer gets at least one row: the "无" row with an empty category when nothing popular is missing, else exactly the missing popular products, each with its category or 未知分类, in strictly increasing order |
| MissingProducts.TypeRowsMember | app004.py:88-106 | a row of a main type is a row of one of its customers |
| MissingProducts.ResultRowsMember | app004.py:82-106 | a result row is a row of some (main type, customer, products) entry of main_type_dict |
| MissingProducts.ReportSound | app004.py:47-106 | every reported row belongs to a (main type, customer) pair of the table and is either a popular product of that type the customer never bought, with its category, or the "无" row of a customer who lacks nothing popular |
| MissingProducts.ReportComplete | app004.py:47-106 | every (main type, customer) pair of the table is reported: each missing popular product with its category, or the "无" row when none is missing |
| Columns.FirstPresent | app007.py:79-80 | no alias is found exactly when none of the names is a column; a found alias is a column, and every name listed before it is not |
| Columns.Renamed | app007.py:82 | the renamed column list has the same length, with `to` at each position of `from` and every other name unchanged |
| Columns.RenameEffect | app007.py:82 | after a rename, `to` is present when `from` or `to` was, `from` is gone, and every other name is as it was |
| Columns.StandardiseEffect | app007.py:78-82 | one entry's rename touches only that entry's names, gives the standard name when an alias is present, and changes nothing otherwise |
| Columns.ResolveStep | app007.py:78-86 | after one entry of a separate alias table, the later entries find the same aliases and see their names unchanged |
| Columns.ResolveFails | app007.py:78-86 | with separate entries, the alias loop stops exactly when some required entry has no alias in the table |
| Columns.ResolveKeeps | app007.py:78-86 | a column that no entry names is present after the loop exactly when it was before |
| Columns.ResolveStandards | app007.py:78-86 | after a complete loop, an entry with an alias present has its standard name, and an entry whose standard name is one of its aliases has it only when some alias was present |
| Columns.ResolveFirstStandard | app007.py:78-86 | the first entry's standard name survives the later renames |
| Columns.FirstPresentSame | app007.py:79 | the alias search gives the same answer on two column lists that agree on those names |
| Columns.Frame.Rename | app007.py:82 | rename(inplace=True) replaces the frame's column list by its renamed version |
| Columns.Frame.ResolveAliases | app007.py:78-86 | the in-place loop ends with the outcome and the column list Resolve specifies |
| Purchases.KeptFrom | app007.py:118-122 | the indices kept by drop_duplicates(keep='last') after the sort, ascending, and all of them |
| Purchases.SortsBeforeAsymmetric | app007.py:119 | two rows never each sort before the other |
| Purchases.SortsBeforeTransitive | app007.py:119 | the sort order by order date, with NaT last and ties in input order, is transitive |
| Purchases.LastOfPairInPrefix | app007.py:118-122 | among the first n rows, a (客户名称, 商品名称) pair that occurs has one row sorting after the others |
| Purchases.LatestCovers | app007.py:118-122 | every (客户名称, 商品名称) pair of the input has a row among the latest purchases |
| Purchases.LatestSound | app007.py:118-122 | each latest purchase is an input row, and no row of its pair is dated later; a NaT row of the pair wins |
| Purchases.LatestUnique | app007.py:118-122 | the latest purchases hold at most one row per pair |
| Purchases.InactiveSound | app007.py:124-125 | a reported pair has only dated orders, all before the threshold date |
| Purchases.InactiveComplete | app007.py:124-125 | a pair whose orders are all dated before the threshold is reported |
| InactiveByMapping.AliasesSeparate | app007.py:71-75 | no name belongs to two entries of COLUMN_MAPPING |
| InactiveByMapping.DateColumnRequired | app007.py:78-86 | the run stops for want of a date column exactly when none of 订单日期, 下单时间, 时间 is present |
| InactiveByMapping.BdColumn | app007.py:78-82 | after standardisation BD is a column exactly when BD or bd_name was |
| InactiveByMapping.MIdColumn | app007.py:136 | standardisation leaves m_id as it was |
| InactiveByMapping.LastDateRename | app007.py:139-141 | renaming order_date to 最后购买日期 gives that column, drops order_date and keeps every other column |
| InactiveByMapping.ResultColumns | app007.py:133-137 | the result columns are 客户名称, 商品名称, sku_id, then BD when present, order_date, then m_id when present |
| InactiveByMapping.KeyColumns | app007.py:78-86 | standardisation keeps 客户名称 and 商品名称 exactly when the table had them |
| InactiveByMapping.SkuColumn | app007.py:78-86 | after standardisation sku_id is a column exactly when sku_id or sku was |
| InactiveByMapping.Run | app007.py:58-141 | no order table, or no date alias, stops the run; each later outcome happens exactly in its case: a customer or product matching table without its key column, a KeyError on a missing 客户名称 or 商品名称, a report exactly when every column is present and some latest purchase of the rows the matching tables let through is inactive (its rows are exactly those inactive purchases, 最后购买日期 in place of order_date, BD and m_id exactly when the input had them), a failure at the final selection when there are inactive rows but no sku column, and the all-active message when nothing is inactive |
| InactiveByMapping.Conclude | app007.py:127-141 | nothing inactive gives the all-active message; inactive rows give a report exactly when sku_id is a column, holding those rows under the result columns, and a failure otherwise |
| InactiveByCustomer.AliasesSeparate | app002.py:43-45 | no name belongs to two of the three alias lists |
| InactiveByCustomer.AliasLookups | app002.py:48-58 | the sku and order-date renames find an alias exactly when the table has one |
| InactiveByCustomer.ResolveNoSku | app002.py:48-54 | without sku_id or sku the run stops at the sku step, columns untouched |
| InactiveByCustomer.ResolveNoDate | app002.py:57-63 | with an sku column but no date column the run stops at the order-date step |
| InactiveByCustomer.ResolveBoth | app002.py:48-71 | with both an sku and a date column the renames complete |
| InactiveByCustomer.ResolveOutcome | app002.py:48-71 | the renames stop exactly when the sku or the date column is missing, and they stop at sku exactly when sku is the one missing |
| InactiveByCustomer.StandardColumns | app002.py:48-71 | after the renames sku_id and order_date are columns, and BD is one exactly when BD or bd_name was |
| InactiveByCustomer.UnnamedColumn | app002.py:48-71 | the renames leave a column that no alias list names as it was |
| InactiveByCustomer.RequiredAfterResolve | app002.py:74-80 | after the renames no required column is missing exactly when BD or bd_name, 客户名称 and 商品名称 were present |
| InactiveByCustomer.MIdColumn | app002.py:83 | the renames leave m_id as it was |
| InactiveByCustomer.Run | app002.py:30-140 | each stop happens exactly in its case (no table, no sku, no date, a missing required column, listing exactly the required columns absent after the renames), a matching table without 客户名称 stops the run exactly when the order table is complete; the all-active message and a report each happen exactly when the order table is complete, the matching table is usable, and no, respectively some, latest purchase of the matched customers is inactive; a report holds exactly those inactive purchases under 客户名称, 商品名称, sku_id, BD, 最后一次购买日期 and m_id when present |
| InactiveByCustomer.Conclude | app002.py:127-140 | nothing inactive gives the all-active message, else the report holds the inactive rows with order_date renamed to 最后一次购买日期 |
| LastOrder.LastIndexOf | app001.py:17 | no index exactly when the character does not occur; otherwise an index of that character with no occurrence after it |
| LastOrder.NameStart | app001.py:17 | the start of the last path component: no '/' occurs from there on |
| LastOrder.Format | app001.py:15-24 | CSV is chosen exactly when the lowered extension is .csv, and Excel exactly when it is .xlsx or .xls; any other extension is the ValueError |
| LastOrder.GroupKeys | app001.py:80 | the group keys have no duplicates and are exactly the (客户名称, 商品名称) pairs of rows with both fields present |
| LastOrder.EarliestWith | app001.py:80-83 | the position found, when there is one, is a row of the group |
| LastOrder.Aggregate | app001.py:80-85 | the result has one row per group key |
| LastOrder.Run | app001.py:40-92 | an unsupported extension, a missing base column (the exact set missing), and a match table without 商品名称 are each reported exactly in their case; otherwise the result is the aggregation of the matched rows, or the no-match message when no matched row has a key |
| LastOrder.ExtOfName | app001.py:17 | a name ending in a dot-free extension after a stem that is not all dots has exactly that extension |
| LastOrder.FormatIgnoresCase | app001.py:19-22 | any casing of .csv is read as CSV, and any casing of .xlsx or .xls as Excel |
| LastOrder.HiddenNameRejected | app001.py:17-24 | a name made of leading dots and a dot-free word (".csv") has no extension and is rejected |
| LastOrder.MatchedRowsIff | app001.py:68-74 | a row survives dropna and the isin filter exactly when it has a date and its 商品名称 is among the match table's |
| LastOrder.OneRowPerPair | app001.py:80-85 | the output has exactly one row per (客户名称, 商品名称) pair of the input |
| LastOrder.MaxDateSpec | app001.py:84 | 'max' is absent exactly when no row has a date; otherwise it is attained by a row and no dated row is later |
| LastOrder.EarliestWithSpec | app001.py:80-83 | the earliest row with a value exists exactly when some row has one, and it sorts first among the rows that have one |
| LastOrder.SortsFirstAntisymmetric | app001.py:80 | two distinct rows never each sort first |
| LastOrder.FirstSpec | app001.py:81-83 | 'first' is absent exactly when no row has a value; otherwise it is the value of the earliest row, in ascending date order, that has one |
| LastOrder.SummaryRow | app001.py:80-85 | each output row holds its group's latest order date, attained by a row of the group, and its m_id is absent exactly when no row of the group has one |
| LastOrder.MatchedIff | app001.py:74-92 | the processing yields rows exactly when some dated row of a matched product has both a customer and a product name |
| PurchaseCycle.Visits | app005.py:52-53 | dropna on 下单时间 never adds rows |
| PurchaseCycle.PrevIn | app005.py:54-57 | a predecessor found is one of the first n visits and sorts before visit i for the same customer |
| PurchaseCycle.GroupKeys | app005.py:64 | the (客户名称, BD) groups have no duplicates and are exactly the keys of the visits considered |
| PurchaseCycle.Query | app005.py:87-95 | the empty-name warning is given exactly when the name is all whitespace; a missing column and an unknown product are each reported exactly in their case; otherwise the result is the summaries of the product's dated orders under the stripped name |
| PurchaseCycle.OfProductIff | app005.py:46 | a row is analysed exactly when its 商品名称 equals the name exactly |
| PurchaseCycle.VisitsIff | app005.py:52-53 | the visits are exactly the dated orders, with their customer and BD |
| PurchaseCycle.PrevInSpec | app005.py:54-57 | there is no predecessor exactly when no visit of the same customer sorts before; otherwise the one found is the latest such visit |
| PurchaseCycle.IntervalFacts | app005.py:57 | every gap is at least 0 days, and a visit has none exactly when it has no customer or is its customer's first in sorted order |
| PurchaseCycle.IntervalIsGap | app005.py:57 | the gap of a visit is the days since its customer's latest earlier visit |
| PurchaseCycle.PrecedesAsymmetric | app005.py:54 | two visits never each sort before the other |
| PurchaseCycle.GroupIntervalsNonNegative | app005.py:57-64 | every gap collected for a group is at least 0 |
| PurchaseCycle.LeastSpec | app005.py:64-67 | 'min' is one of the gaps and no gap is smaller |
| PurchaseCycle.GreatestSpec | app005.py:64-68 | 'max' is one of the gaps and no gap is larger |
| PurchaseCycle.StatsOrdered | app005.py:64-69 | for a non-empty list of gaps, 0 ≤ shortest ≤ mean ≤ longest |
| PurchaseCycle.AllZeroIff | app005.py:78-82 | mean, shortest and longest gap are not all 0 exactly when the longest gap is positive |
| PurchaseCycle.LatestDateSpec | app005.py:60-61 | a customer's 最近一次下单时间 is absent exactly when it has no visit; otherwise it is attained by a visit and no visit is later |
| PurchaseCycle.GroupIntervalsHaveVisit | app005.py:57-71 | a group with a gap has a dated visit of its customer, so the left merge finds its latest date |
| PurchaseCycle.SummaryRowFacts | app005.py:64-84 | each reported row carries the queried product, 0 ≤ shortest ≤ mean ≤ longest with longest > 0, the customer's latest order date, and a prediction equal to that date plus the mean gap rounded down to a day |
| PurchaseCycle.ReportedIff | app005.py:77-82 | a group is reported exactly when it has at least one gap and its longest gap is positive |
| GmvTargets.MonthsOf | app006.py:26-32 | a customer's months have no duplicates and are exactly the months in which that customer has an entry |
| GmvTargets.KeysOfMonths | app006.py:29 | the monthly group keys of a customer: one per month, in order |
| GmvTargets.Customers | app006.py:32 | the customers of customer_avg_gmv have no duplicates and are exactly the customers with an entry |
| GmvTargets.Averages | app006.py:32-33 | customer_avg_gmv has one 月平均GMV row per customer |
| GmvTargets.CountLarger | app006.py:36 | the count of same-BD customers with a larger average never exceeds the table size |
| GmvTargets.Ranked | app006.py:36-43 | every customer of customer_avg_gmv gets one ranked row |
| GmvTargets.AnalyzeData | app006.py:6-45 | analyze_data raises KeyError whenever 商品名称, 客户名称 or BD is missing or both names of a fallback pair are; on a header without padded names that is the only way it raises; when it returns, every column it reads is present and the result is the ranked window and the GMV total over the stripped header |
| GmvTargets.MissingRead | app006.py:8-29 | a KeyError comes from a missing column, a missing fallback pair, or a header name with surrounding spaces |
| GmvTargets.EntriesKept | app006.py:8-29 | every row that reaches the monthly sums is a kept row (not one of the two cream products) with that customer id, 客户名称, BD and GMV |
| GmvTargets.SumOfFilterSplit | app006.py:8-20 | the GMV of the rows a filter keeps plus that of the rows it drops is the GMV of all rows |
| GmvTargets.TotalExcludesCream | app006.py:8-20 | total_gmv is the file's GMV sum less the GMV of the rows of 爱乐薇(铁塔)淡奶油 and 安佳淡奶油 |
| GmvTargets.ColumnFallback | app006.py:15-17 | cust_id, 日期 and 实付GMV are read when present, else m_id, 下单时间 and 实付金额 |
| GmvTargets.MonthSumsAddUp | app006.py:29-32 | adding up a customer's monthly sums gives that customer's total GMV |
| GmvTargets.AverageIsTotalPerMonth | app006.py:29-33 | 月平均GMV is the customer's total GMV divided by the number of months in which it ordered, which is at least one |
| GmvTargets.CountLargerMonotone | app006.py:36 | a higher threshold sees no more larger averages, and strictly fewer when a same-BD average lies between the two |
| GmvTargets.CountLargerZero | app006.py:36 | no same-BD average is larger exactly when every same-BD average is at most the value |
| GmvTargets.RankFacts | app006.py:36 | 排名 with method='min' is at least 1; equal averages in one BD share a rank; a larger average ranks strictly better; rank 1 goes exactly to the customers no same-BD customer beats |
| GmvTargets.WindowIff | app006.py:36-45 | the returned customers are exactly the ranked ones with min_rank ≤ 排名 ≤ max_rank, each with 目标 = 月平均GMV × (1 + pct/100) |
| GmvTargets.TargetRaises | app006.py:43 | with a non-negative percentage, 目标 is never below a non-negative average and exceeds it by avg·pct/100 |
| RecipeCost.Recipe.constructor | app000.py:4-11 | a new session has no recipe name, no ingredients, counter 1 and the name not set |
| RecipeCost.Recipe.SetRecipeName | app000.py:33-43 | a non-empty entry becomes the recipe name and marks it set; an empty one changes nothing; the ingredients are untouched |
| RecipeCost.Recipe.AddIngredient | app000.py:47-110 | without a recipe name the name prompt is shown; otherwise the entry is appended, with both weights converted to grams, and the counter advanced, exactly when the name is non-empty and both weights are positive (the price is not checked); every other case changes nothing |
| RecipeCost.Recipe.CalculateCost | app000.py:113-146 | with no ingredients the 没有添加任何原材料 error is given; otherwise the loop's total is the sum of weight × price / package weight over the ingredients |
| RecipeCost.GramsPositive | app000.py:15-29 | conversion to grams never shrinks a positive quantity, so stored weights stay positive |
| RecipeCost.GramsLinear | app000.py:15-29 | converting a quantity is the quantity times the grams of one unit |
| RecipeCost.GramsUnchangedIff | app000.py:15-29 | only 斤, 公斤 and 升 change a quantity; every other unit, known or not, keeps it |
| RecipeCost.TotalAppend | app000.py:126-143 | the total over two lists of ingredients is the sum of their totals |
| RecipeCost.TotalBounds | app000.py:126-143 | with non-negative prices the total is non-negative, and it is at most the summed package prices when no recipe uses more than one package |
| Quote.FindClose | baojia.py:45 | the end of a lazy `.*?\)` match, when there is one, is a ')' at or after the start |
| Quote.RemoveGroups | baojia.py:45 | removing the `(...)` groups never lengthens the name |
| Quote.Collapse | baojia.py:47 | collapsing whitespace runs never lengthens the name |
| Quote.FindCloseShift | baojia.py:45 | the search for ')' is unaffected by a character placed before its start |
| Quote.NoCloseKept | baojia.py:45 | a text with no ')' on its first line still has none after the removal |
| Quote.RemoveGroupsClears | baojia.py:45 | removing every `(...)` group (shortest match) leaves no complete parenthesised group in the name |
| Quote.RemoveGroupsKeeps | baojia.py:45 | a name without '(' is left unchanged by the group removal |
| Quote.CollapseSpaced | baojia.py:47 | collapsing whitespace runs leaves no two adjacent whitespace characters and no whitespace other than ' '; a leading space only comes from a leading whitespace |
| Quote.CollapseKeeps | baojia.py:47 | a name already single-spaced is its own collapse |
| Quote.SliceSpaced | baojia.py:47 | any slice of a single-spaced name is single-spaced |
| Quote.TrimFacts | baojia.py:47 | `.strip()` of a single-spaced name keeps it single-spaced and leaves no whitespace at either end |
| Quote.TrimKeeps | baojia.py:47 | a name without whitespace at its ends strips to itself |
| Quote.LowerFacts | baojia.py:48 | lowering a stripped single-spaced name leaves it clean: single-spaced, stripped, no ASCII capital letter |
| Quote.LowerKeeps | baojia.py:48 | a name without capital letters lowers to itself |
| Quote.CleanNameIsClean | baojia.py:40-48 | clean_product_name always returns a clean name (single-spaced, stripped, no ASCII capital), and "" for a missing name |
| Quote.CleanKeepsCleanNames | baojia.py:40-48 | clean_product_name leaves an already clean name without '(' unchanged (it is idempotent on such names) |
| Quote.ExtractOne | baojia.py:65 | process.extractOne returns one of the choices together with its score, and no choice scores higher |
| Quote.FuzzyMatchGate | baojia.py:52-69 | a match is reported iff there are candidates, the cleaned name is non-empty and the best score reaches 80; the match is a candidate with the best score, otherwise the score is 0 |
| Quote.MaxRate | baojia.py:131 | `Series.max()` is None exactly for an empty column, otherwise a rate of the column that bounds every rate |
| Quote.Normalise | baojia.py:128-132 | the percent-to-fraction step keeps every row's 序号 and category and the other customer type's rate |
| Quote.ScaledIff | baojia.py:131-132 | a numeric rate column is divided by 100 exactly when one of its rates exceeds 1 |
| Quote.NormalisedAreFractions | baojia.py:128-132 | every normalised rate is the read rate or that rate over 100; rates read as percentages (0-100) or fractions (0-1) from a numeric column all end up in [0, 1] |
| Quote.NormaliseIdempotent | baojia.py:131-132 | normalising a numeric column of rates up to 100 a second time changes nothing |
| Quote.CleanNames | baojia.py:135-136 | the cleaned_name column has one entry per cost row, the cleaned name of that row |
| Quote.FirstOf | baojia.py:151 | the first position holding a name: it holds the name and no earlier position does |
| Quote.CostIndex | baojia.py:151 | `.iloc[0]` of the cost rows with the matched cleaned name: a row with that cleaned name and no earlier one |
| Quote.MarginIndex | baojia.py:154-156 | the first margin row of the category, or None exactly when no margin row has that category |
| Quote.QuotePriceMargin | baojia.py:157-158 | for a rate below 1 the quote cost / (1 - rate) achieves that gross margin on a non-zero cost, and with a non-negative cost and rate it is not below the cost |
| Quote.QuoteResultMatch | baojia.py:142-193 | each result row keeps the product and its quantity; a product with a non-empty match shows the first cost row with that cleaned name, its category and cost, and a score of at least 80; any other product gets the "无" row with score 0 |
| Quote.MatchedRowPrice | baojia.py:149-180 | a matched product is priced exactly when its category's first margin row has a rate below 1; then its margin is the rate in percent rounded to 2 places, its quote cost/(1-rate) rounded and its total round(quote * quantity, 2) when the file has quantities; otherwise margin, quote and total all show "无" |
| Quote.WeightedMarginHundredfold | baojia.py:199-219 | the weighted margin as written (margin column in percent times sales) is exactly 100 times the sales-weighted fraction |
| Quote.WeightedMarginShownHundredfold | baojia.py:216-219 | one product at a 25% margin (cost 7.5, quote 10, quantity 2) makes the weighted margin as written 25, displayed as 2500.00%; the fraction is 0.25, displayed as 25.00% |
| Quote.ContributionsAtLeast | baojia.py:210-219 | with every margin at least lo% and non-negative sales, the summed contributions are at least lo/100 of the summed sales, and so is their quotient |
| Quote.ContributionsAtMost | baojia.py:210-219 | with every margin at most hi% and non-negative sales, the summed contributions are at most hi/100 of the summed sales, and so is their quotient |
| Quote.WeightedMarginBounds | baojia.py:199-224 | the sales-weighted margin lies between the smallest and the largest weighed margin (as fractions) when sales are positive, and is 0 otherwise |
| Quote.MeanBetween | baojia.py:228-229 | the mean rate of a non-empty set of rows is a number between the smallest and largest rate |
| Quote.GroupsPresent | baojia.py:227 | the main group (序号 1-7) and the secondary group have rows exactly when some row of the table belongs to them |
| Quote.GroupMeanBetween | baojia.py:228-229 | a non-empty group's mean rate is a number within the bounds of the table's rates |
| Quote.GroupAverageBounds | baojia.py:226-230 | the 85%/15% estimate is a number exactly when both groups have rows, and then lies within the bounds of the rates |
| Quote.Results | baojia.py:139-196 | the result table has one row per row of the file to be quoted, in order, each that row's result |
| Quote.ResultsPrefix | baojia.py:142-193 | one more quoted row appends exactly its result to the table |
| Quote.BuildResults | baojia.py:139-193 | the loop over the quoted rows builds the whole result table |
| Quote.QuoteSession.constructor | baojia.py:22-36 | the session starts with no tables, no customer type, no results, no margin and no quantity column |
| Quote.QuoteSession.CalculateQuote | baojia.py:91-233 | stops with a warning until all three tables and the customer type are present, then with an error for the first missing required column, changing nothing; otherwise records whether the file has 数量, the result table and the combined margin (weighted by sales when there are quantities and rows, the grouped estimate otherwise), leaving the inputs untouched; the weighted margin recorded is the corrected fraction, and the value the page as written stores is 100 times it |
| MonthOverMonth.PartitionIff | app003.py:24-25 | main_df holds exactly the rows of products outside SPECIAL_ITEMS, special_df exactly those inside it, and together they hold every row once |
| MonthOverMonth.PartitionCount | app003.py:24-25 | main_df and special_df together have as many rows as the input |
| MonthOverMonth.LatestMonth | app003.py:20-21 | latest_month is absent exactly when there are no rows; otherwise it is a month that occurs and no month is later |
| MonthOverMonth.GrowthOfValues | app003.py:35-36 | the 环比 formula times a non-zero previous amount is 100 × the change; with a previous amount of 0 it is 100 × the latest amount; for a positive previous amount its sign is the sign of the change |
| MonthOverMonth.GrowthSpec | app003.py:35-36 | 环比 is NaN exactly when the group lacks the latest month or the month before; otherwise it is the change as a percentage of the previous amount, 0 counting as 1, signed like the change when the previous amount is positive |
| MonthOverMonth.Key | app003.py:33 | a row's group is its cells in the grouping columns, in order |
| MonthOverMonth.MonthTotal | app003.py:33 | a group has an amount in a month exactly when some row of that group is dated in that month |
| MonthOverMonth.LookupMonthly | app003.py:33 | a group's amount in a month, read from its unstacked row, is its month total |
| MonthOverMonth.GrowthTable | app003.py:33-37 | the unstacked table has one row per group, in order |
| MonthOverMonth.AnalyseOutcome | app003.py:34-36 | an analysis is skipped exactly when fewer than two months occur, and yields a table exactly when the latest month and the month before it both occur |
| MonthOverMonth.Attempt | app003.py:33 | an analysis raises KeyError before computing anything exactly when 实付金额 or one of its grouping columns is missing, and is otherwise the analysis of its rows |
| MonthOverMonth.GroupsSpec | app003.py:33 | the groups are the keys of the rows, each once |
| MonthOverMonth.AnalyseGrowth | app003.py:33-37 | each 环比 of a computed table compares the group's paid totals in latest_month and latest_month - 1 |
| MonthOverMonth.TableKeys | app003.py:33 | a table keyed by the groups has a row for every group present and for nothing else, each once |
| MonthOverMonth.AnalyseGroups | app003.py:33-37 | a computed table has one row per group present in its rows, each group once |
| MonthOverMonth.Steps | app003.py:27-70 | each analysis of the plan runs on special_df when it is a special analysis and on main_df otherwise |
| MonthOverMonth.CollectAppend | app003.py:27-70 | running the analyses in two parts: the second part counts only when the first raised nothing |
| MonthOverMonth.CollectSucceeds | app003.py:27-70 | the run completes exactly when no analysis raised, on a missing column or a missing month |
| MonthOverMonth.CollectSheets | app003.py:27-84 | a completed run's sheets are the tables of the computed analyses, in order, under their titles |
| MonthOverMonth.CollectSingle | app003.py:34-37 | one analysis adds its table, adds nothing, or raises |
| MonthOverMonth.StepsAppend | app003.py:27-70 | the analyses of a plan in two parts are those of each part |
| MonthOverMonth.StepsNext | app003.py:27-70 | running one more analysis adds its table under its title, adds nothing when skipped, or raises |
| MonthOverMonth.StepsRaise | app003.py:27-70 | once an analysis raises, the whole run raises |
| MonthOverMonth.PaidColumnNeeded | app003.py:33 | without 实付金额, a run with at least one analysis to do raises |
| MonthOverMonth.SheetName | app003.py:82 | the sheet name is the first 31 characters of the title |
| MonthOverMonth.DimPlanTitles | app003.py:47-53 | the titles of the 主营类型, 商品分类 and 订单类型 analyses are at most 6 characters and run on main_df |
| MonthOverMonth.SheetNamesAreTitles | app003.py:82 | every title of the report fits in 31 characters, so each sheet is named by its full title |
| MonthOverMonth.Report.constructor | app003.py:27 | `results` starts empty |
| MonthOverMonth.Report.Add | app003.py:33-37 | one analysis step adds its table under its title exactly when computed, leaves `results` unchanged otherwise, and reports whether it raised on a missing column or month |
| MonthOverMonth.Report.RunPlan | app003.py:26-70 | `results` starts empty and the analyses of the plan run in order; the run completes exactly when the collected steps raise nothing, and `results` then holds their sheets |
| MonthOverMonth.Report.Run | app003.py:18-93 | without 下单时间 the error is shown and `results` is untouched; without 商品名称 the split raises KeyError, `results` untouched; otherwise the run completes exactly when no analysis raises, and then `results` holds the sheets of the computed analyses in plan order |
| Common.IsSubstringIff | app009.py:80-82 | Python's `keyword in name` holds exactly when the keyword occurs at some position of the name |
| Common.StripWhitespace | app009.py:73 | deleting every `\s` match leaves no whitespace and never lengthens the text |
| Common.StripWhitespaceKeeps | app009.py:89 | deleting whitespace is idempotent and leaves whitespace-free text unchanged |
| Common.Round2Spec | app009.py:146-147 | round(x, 2) gives whole cents within half a cent of x, and keeps an amount already in whole cents |
| Common.Round2Positive | app009.py:160-161 | a positive rounded amount comes from a positive amount, and 0 rounds to 0 |
| Common.CentsAdd | app009.py:171 | the sum of two whole-cent amounts is whole cents |
| Common.SumOfAppend | app009.py:177-178 | the sum over two blocks of rows is the sum of the two block sums |
| Common.SumOfCents | app009.py:177-178 | a column of whole-cent amounts sums to whole cents |
| Common.SumOverKeysOfEmpty | app006.py:29 | group sums over no rows are all 0 |
| Common.SumOverKeysStep | app006.py:29 | one more row adds its value to the group sums of distinct keys exactly when its key is one of them |
| Common.SumPartition | app009.py:164-168 | grouping by a key and adding the group sums over the distinct keys of all rows gives the column total |
| Common.SumWithKeyCents | app009.py:156-160 | a group sum of whole-cent amounts is whole cents |
| Common.DedupFrom | app009.py:133 | keep-first de-duplication never lengthens the rows |
| Common.DedupFromSubset | app009.py:133 | de-duplication keeps only rows of its input |
| Common.DedupFromKeys | app009.py:133 | no kept key is one already seen, and no two kept rows share a key |
| Common.DedupFromSoundAt | app009.py:133 | every kept row is the first row of its key in the input |
| Common.DedupFromComplete | app009.py:133 | the first row of every key not already seen is kept |
| Common.DedupFromCovers | app009.py:133 | every key not already seen still has a kept row |
| Common.KeepFirstOfMask | app009.py:124-137 | a mask, whole-row de-duplication and keep-first on a key keep only masked rows, one per key, and every masked row's key still has a kept row |
| Common.MaskedDistinct | app009.py:83 | a row is in the de-duplicated masked rows exactly when it is an input row satisfying the mask |
| Common.KeepFirstKeys | app009.py:133 | `drop_duplicates(subset=key)` keeps input rows with pairwise distinct keys |
| Common.KeepFirstCovers | app009.py:133 | every input row's key is represented after `drop_duplicates(subset=key)` |
| Common.DistinctSpec | app009.py:72 | `drop_duplicates()` keeps exactly the input rows, each once |
| Common.DistinctOfNoDups | app009.py:77 | `drop_duplicates()` of rows already distinct changes nothing |
| Common.DistinctFromNoDups | app009.py:77 | keep-first de-duplication of distinct rows none of which was seen changes nothing |
| Common.DistinctIdempotent | app009.py:95 | `drop_duplicates()` twice is `drop_duplicates()` once |
| Common.Filter | app009.py:83 | a boolean mask never lengthens the rows |
| Common.FilterMember | app009.py:83 | a row survives a mask exactly when it is an input row satisfying the mask |
| Common.FilterSound | app009.py:86 | every row surviving a mask is an input row satisfying it |
| Common.FilterAppend | app009.py:98-99 | masking two blocks of rows masks each block |
| Common.FilterNoDups | app009.py:98-99 | masking distinct rows leaves distinct rows |
| Common.StaysTrueAppend | app009.py:98-108 | rows failing a property followed by rows satisfying it keep it from its first occurrence on |
| Common.StaysTrueFilter | app009.py:124-129 | a mask keeps a property that, once true, stays true |
| Common.StaysTrueDedup | app009.py:133-137 | de-duplication keeps a property that, once true, stays true |
| Common.SumOfAdd | app009.py:171 | the sum of a column that is the sum of two columns is the sum of their sums |
| Common.SumOfScaled | baojia.py:216 | a column that is a constant multiple of another sums to that multiple of its sum |
| Common.SumOfMonotone | baojia.py:213-219 | summing keeps a row-by-row comparison |
| Common.SumOfAtLeast | baojia.py:228 | a sum of values of at least lo is at least the row count times lo |
| Common.SumOfAtMost | baojia.py:228 | a sum of values of at most hi is at most the row count times hi |
| Common.SumOfWeightedAtLeast | baojia.py:216-219 | contributions of at least lo times their weights sum to at least lo times the summed weights |
| Common.SumOfWeightedAtMost | baojia.py:216-219 | contributions of at most hi times their weights sum to at most hi times the summed weights |
| Common.SumWithKeyAdd | app009.py:164-171 | a group sum of a column that adds two columns is the sum of their group sums |
| Common.SumWithKeySingle | app009.py:164-168 | a group with one row sums to that row's value |
| Common.SumWithKeyAbsent | app009.py:164-168 | a key with no row sums to 0 |
| Common.MissingColumns | app009.py:25-26 | the missing columns are exactly the required columns absent from the table, in order, and none is missing iff all are present |
| Common.TrimStart | app005.py:90 | `lstrip()` removes exactly the leading whitespace |
| Common.TrimEnd | app005.py:90 | `rstrip()` removes exactly the trailing whitespace |
| Common.TrimEmptyIff | app005.py:90 | `not s.strip()` holds exactly when the text is all whitespace |
| Common.Lower | baojia.py:48 | `lower()` maps each character through the ASCII letter lowering and keeps the length |
| Common.LexIrreflexive | app004.py:92 | no string sorts before itself |
| Common.LexTransitive | app004.py:92 | Python's string order is transitive |
| Common.LexTotal | app004.py:92 | of two distinct strings one sorts before the other |
| Common.LexMinExists | app004.py:92 | every non-empty finite set of strings has a least element |
| Common.LeastUnique | app004.py:92 | the least element of a set is unique |
| Common.SortedSetSpec | app004.py:92 | `sorted(set)` lists every element exactly once, in strictly ascending order |
| Common.SortSet | app004.py:92 | the selection loop computes `sorted(set)` |

## Left out

- The Streamlit user interface is not modelled: widgets, layout, styling, spinners, the logo image (app005.py:15-26) and `st.rerun`. Session state is modelled only where the logic reads or writes it (the recipe and quoting sessions, app003's `results`).
- File input and output are not modelled: `pd.read_excel` and `pd.read_csv` parsing, Excel and CSV export, BytesIO buffers, download buttons, and writes to the `uploads` folder (app001.py:11-13, 46-49, 99-100) or to a local workbook (app006.py:88). A loaded table is given as its column names and rows. Only the choice of reader from the file extension is modelled (`LastOrder.Format`, and the accepted extensions of app009.py).
- `load_data` in baojia.py (lines 72-88) is not modelled: it only dispatches to a file reader and shows errors.
- `datetime.now()` (app002.py:118, app007.py:115) is not read. The inactivity threshold date is a parameter.
- Date parsing (`pd.to_datetime(..., errors='coerce')`) is not modelled. A date cell arrives already parsed as a day number, or `None` for NaT.
- The fuzzy scorer of `process.extractOne` (baojia.py:65) is a foreign library. The score is a function parameter, and only the selection of the best-scoring candidate and the threshold gate are modelled.
- Binary floating point is not modelled. Amounts are exact reals, so `round(x, 2)` on a double that is not exactly representable may differ from `Round2` in the last cent.
- Display formats (`:.2%`, `%.2f`, the `匹配度` text "NN%") are not modelled as strings. `Quote.ShownPercent` is the one display rule that matters for a finding below.
- The match statistics of the quoting page (baojia.py:327-331) are not modelled: they are display only.
- Output order of `groupby` is not modelled. pandas lists groups in sorted key order, while the model lists them in order of first appearance. The contents of every group are modelled.
- `sort_values` uses quicksort by default, which is not stable. The model breaks ties in input order, as a stable sort would. So `keep='last'` on equal dates may pick a different row of equal date than pandas would.
- NaN details beyond what each page depends on are not modelled. A missing cell is `None`. `isin` matches NaN to NaN, and `sum` skips NaN; both are modelled where used.
- A margin column read as text (pandas dtype object, baojia.py:129-130) is given already converted to numbers with the '%' removed. Parsing the text, and the error for a cell that is not a number, are not modelled.
- The reshaping of app003's tables (`unstack` into month columns) and the display sort by 环比 are not modelled. Each group's amounts in the latest and previous month are computed directly.
- `str.lower()` is modelled on ASCII letters only. Other scripts' case mappings are not.
- A `KeyError` from a column that a page reads without checking it first is modelled as a failure outcome of that page (app007, app002, app008, app003, app006), driven by the columns the page reads. Which column raised is not distinguished. Columns the pages read in code not modelled here (formatting, export) are not part of these conditions.
- StandardBonus.Analyze: the merge's handling of a column name both tables share is modelled only as making that name unreadable (pandas renames the pair with _x/_y suffixes). A cell that is not a number in 销量 or a commission column, and a date cell that does not parse, fail in pandas and are not modelled: rows arrive with numbers and parsed dates.
- FreshFruitBonus.Analyze: an empty frame reaching the keyword or spec apply (app009.py:80, 92), whose lambdas raise on pandas' NaN probe row, is modelled as `Crashed`. Other ways the page can raise on malformed cells, such as a 商品描述 that is not text at the `.str` accessor, are not modelled.
- MonthOverMonth.Report.Run: an unparseable 下单时间 (to_datetime without errors='coerce', app003.py:20) raises in pandas and is not modelled. Dates arrive as month indices.
- Purchases.Latest: the kept rows are listed in input order, while pandas lists them in ascending order-date order, NaT last, after the sort. Which rows are kept is modelled. Inactive, and the reports built from it, inherit this order.
- Order timestamps are taken as whole days. The inactivity threshold is the day after the day of now − N days, so an order is inactive exactly when its day number is below it. The case where now falls exactly at midnight, when an order dated that day is not before the threshold, is not distinguished.
- Quote.QuoteSession.CalculateQuote: the session records the corrected weighted margin, a fraction. The page as written stores 100 times that value (see Findings). The contract states both values and the relation between them.
- The user-facing messages are modelled as named outcomes of each page rather than as their text.

## Findings

| source | as written | input that shows it | evidently intended | confidence | as-written member | corrected member |
|---|---|---|---|---|---|---|
| baojia.py:216-219, 291, 309 | the weighted combined margin multiplies the result table's margin column by the sales, but that column holds the margin in percent (round(rate × 100, 2), baojia.py:175); the quotient is then shown with the `:.2%` format, which multiplies by 100 again | one matched product with cost 7.5 and a 25% margin, quoted at 10 for a quantity of 2: the combined margin is 25 and is shown as 2500.00% | the margin as a fraction (0.25), shown as 25.00% | not executed | Quote.WeightedMarginShownHundredfold | Quote.WeightedMarginBounds |
