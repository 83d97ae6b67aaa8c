/** The latest-purchase analysis shared by app007.py and app002.py: rows sorted by
    order date (unparseable dates, NaT, last), one row kept per (客户名称, 商品名称) with
    keep='last', and the pairs whose latest order is before a threshold reported. */
module Purchases {
  import opened Common

  /** An order row after column standardisation; `date` is None for NaT. */
  datatype Purchase = Purchase(customer: string, product: string, sku: string, bd: string,
                               date: Option<int>, mId: string)

  predicate SamePair(a: Purchase, b: Purchase)
  {
    a.customer == b.customer && a.product == b.product
  }

  /** Order dates as sort_values orders them: NaT after every date. */
  predicate DateAtMost(a: Option<int>, b: Option<int>)
  {
    b.None? || (a.Some? && a.value <= b.value)
  }

  /** Row j comes before row i in a stable sort by date. */
  predicate SortsBefore(rows: seq<Purchase>, j: nat, i: nat)
    requires j < |rows| && i < |rows|
  {
    !DateAtMost(rows[i].date, rows[j].date) || (rows[j].date == rows[i].date && j < i)
  }

  /** Row i is the one drop_duplicates(keep='last') keeps for its pair. */
  predicate KeptLast(rows: seq<Purchase>, i: nat)
    requires i < |rows|
  {
    forall j :: 0 <= j < |rows| && j != i && SamePair(rows[j], rows[i]) ==> SortsBefore(rows, j, i)
  }

  /** The indices of the kept rows, from `i` on, ascending. */
  function KeptFrom(rows: seq<Purchase>, i: nat): (r: seq<nat>)
    requires i <= |rows|
    ensures forall k :: 0 <= k < |r| ==> i <= r[k] < |rows| && KeptLast(rows, r[k])
    ensures forall k, l :: 0 <= k < l < |r| ==> r[k] < r[l]
    ensures forall j :: i <= j < |rows| && KeptLast(rows, j) ==> j in r
    decreases |rows| - i
  {
    if i == |rows| then []
    else if KeptLast(rows, i) then [i] + KeptFrom(rows, i + 1)
    else KeptFrom(rows, i + 1)
  }

  /** latest_purchases: the kept row of every pair, listed in input order rather than in
      the date order of the sorted frame. */
  function Latest(rows: seq<Purchase>): seq<Purchase>
  {
    var kept := KeptFrom(rows, 0);
    seq(|kept|, k requires 0 <= k < |kept| => rows[kept[k]])
  }

  predicate InactiveAt(threshold: int, p: Purchase)
  {
    p.date.Some? && p.date.value < threshold
  }

  function Before(threshold: int): Purchase -> bool
  {
    (p: Purchase) => InactiveAt(threshold, p)
  }

  /** The latest rows dated before the threshold (a NaT date compares false). */
  function Inactive(rows: seq<Purchase>, threshold: int): seq<Purchase>
  {
    Filter(Latest(rows), Before(threshold))
  }

  function CustomerIn(names: seq<string>): Purchase -> bool
  {
    (p: Purchase) => p.customer in names
  }

  function ProductIn(names: seq<string>): Purchase -> bool
  {
    (p: Purchase) => p.product in names
  }

  // ---------------------------------------------------------------------------
  // Properties
  // ---------------------------------------------------------------------------

  lemma SortsBeforeAsymmetric(rows: seq<Purchase>, i: nat, j: nat)
    requires i < |rows| && j < |rows|
    ensures !(SortsBefore(rows, i, j) && SortsBefore(rows, j, i))
  {
  }

  lemma SortsBeforeTransitive(rows: seq<Purchase>, i: nat, j: nat, k: nat)
    requires i < |rows| && j < |rows| && k < |rows|
    requires SortsBefore(rows, i, j) && SortsBefore(rows, j, k)
    ensures SortsBefore(rows, i, k)
  {
  }

  /** Row m is the row of q's pair that sorts last among the first n rows. */
  predicate LastInPrefix(rows: seq<Purchase>, q: Purchase, n: nat, m: nat)
    requires n <= |rows|
  {
    m < n && SamePair(rows[m], q)
    && forall j :: 0 <= j < n && j != m && SamePair(rows[j], q) ==> SortsBefore(rows, j, m)
  }

  /** Among the first n rows, if any is of q's pair, one of them sorts after the others. */
  lemma {:induction false} LastOfPairInPrefix(rows: seq<Purchase>, q: Purchase, n: nat)
    requires n <= |rows|
    requires exists j :: 0 <= j < n && SamePair(rows[j], q)
    ensures exists m :: LastInPrefix(rows, q, n, m)
  {
    var last := n - 1;
    if !SamePair(rows[last], q) {
      LastOfPairInPrefix(rows, q, last);
      var m :| LastInPrefix(rows, q, last, m);
      assert LastInPrefix(rows, q, n, m);
    } else if !exists j :: 0 <= j < last && SamePair(rows[j], q) {
      assert LastInPrefix(rows, q, n, last);
    } else {
      LastOfPairInPrefix(rows, q, last);
      var m :| LastInPrefix(rows, q, last, m);
      if SortsBefore(rows, last, m) {
        assert LastInPrefix(rows, q, n, m);
      } else {
        assert SortsBefore(rows, m, last);
        forall j | 0 <= j < n && j != last && SamePair(rows[j], q) ensures SortsBefore(rows, j, last) {
          if j != m {
            SortsBeforeTransitive(rows, j, m, last);
          }
        }
        assert LastInPrefix(rows, q, n, last);
      }
    }
  }

  /** Every pair of the input has a row in latest_purchases. */
  lemma LatestCovers(rows: seq<Purchase>, i: nat)
    requires i < |rows|
    ensures exists p :: p in Latest(rows) && SamePair(p, rows[i])
  {
    LastOfPairInPrefix(rows, rows[i], |rows|);
    var m: nat :| LastInPrefix(rows, rows[i], |rows|, m);
    assert KeptLast(rows, m);
    var kept := KeptFrom(rows, 0);
    var k :| 0 <= k < |kept| && kept[k] == m;
    assert Latest(rows)[k] == rows[m];
  }

  /** Every row of latest_purchases is an input row that sorts after every other row
      of its pair, so no row of the pair is dated later (a NaT row of the pair wins). */
  lemma LatestSound(rows: seq<Purchase>, p: Purchase)
    requires p in Latest(rows)
    ensures p in rows
    ensures forall q :: q in rows && SamePair(p, q) ==> DateAtMost(q.date, p.date)
  {
    var kept := KeptFrom(rows, 0);
    var a :| 0 <= a < |kept| && Latest(rows)[a] == p;
    var i := kept[a];
    assert rows[i] == p;
    forall q | q in rows && SamePair(p, q) ensures DateAtMost(q.date, p.date) {
      var j :| 0 <= j < |rows| && rows[j] == q;
      if j != i {
        assert SortsBefore(rows, j, i);
      }
    }
  }

  /** latest_purchases holds at most one row per pair. */
  lemma LatestUnique(rows: seq<Purchase>)
    ensures forall a, b :: 0 <= a < b < |Latest(rows)| ==> !SamePair(Latest(rows)[a], Latest(rows)[b])
  {
    var kept := KeptFrom(rows, 0);
    forall a, b | 0 <= a < b < |Latest(rows)| ensures !SamePair(Latest(rows)[a], Latest(rows)[b]) {
      SortsBeforeAsymmetric(rows, kept[a], kept[b]);
      assert KeptLast(rows, kept[a]) && KeptLast(rows, kept[b]);
    }
  }

  /** A reported pair has only dated orders, all before the threshold. */
  lemma InactiveSound(rows: seq<Purchase>, threshold: int, p: Purchase)
    requires p in Inactive(rows, threshold)
    ensures forall r :: r in rows && SamePair(r, p) ==> InactiveAt(threshold, r)
  {
    FilterMember(Latest(rows), Before(threshold), p);
    LatestSound(rows, p);
  }

  /** A pair whose orders are all dated before the threshold is reported. */
  lemma InactiveComplete(rows: seq<Purchase>, threshold: int, q: Purchase)
    requires q in rows
    requires forall r :: r in rows && SamePair(r, q) ==> InactiveAt(threshold, r)
    ensures exists p :: p in Inactive(rows, threshold) && SamePair(p, q)
  {
    var i :| 0 <= i < |rows| && rows[i] == q;
    LatestCovers(rows, i);
    var p :| p in Latest(rows) && SamePair(p, q);
    LatestSound(rows, p);
    FilterMember(Latest(rows), Before(threshold), p);
  }
}
