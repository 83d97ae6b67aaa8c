/** Shared vocabulary of the sales-analysis scripts: optional values, Python string
    tests, two-decimal rounding, sums, pandas' keep-first de-duplication and
    Python's string ordering. */
module Common {

  datatype Option<T> = None | Some(value: T)

  // ---------------------------------------------------------------------------
  // Strings
  // ---------------------------------------------------------------------------

  /** `needle` occurs in `hay` starting at index `i`. */
  predicate OccursAt(needle: string, hay: string, i: int)
  {
    0 <= i && i + |needle| <= |hay| && hay[i..i + |needle|] == needle
  }

  /** Python's `needle in hay` on str: case-sensitive contiguous containment;
      the empty string is contained in every string. */
  predicate IsSubstring(needle: string, hay: string)
    decreases |hay|
  {
    (|needle| <= |hay| && hay[..|needle|] == needle)
    || (|hay| > 0 && IsSubstring(needle, hay[1..]))
  }

  /** The recursive scan agrees with the positional definition of containment. */
  lemma {:induction false} IsSubstringIff(needle: string, hay: string)
    ensures IsSubstring(needle, hay) <==> exists i :: OccursAt(needle, hay, i)
    decreases |hay|
  {
    if |needle| <= |hay| && hay[..|needle|] == needle {
      assert OccursAt(needle, hay, 0);
    } else if |hay| > 0 {
      IsSubstringIff(needle, hay[1..]);
      if IsSubstring(needle, hay[1..]) {
        var i :| OccursAt(needle, hay[1..], i);
        assert hay[1..][i..i + |needle|] == hay[i + 1..i + 1 + |needle|];
        assert OccursAt(needle, hay, i + 1);
      }
      if exists i :: OccursAt(needle, hay, i) {
        var i :| OccursAt(needle, hay, i);
        assert i != 0;
        assert hay[1..][i - 1..i - 1 + |needle|] == hay[i..i + |needle|];
        assert OccursAt(needle, hay[1..], i - 1);
      }
    } else {
      assert |needle| > 0;
    }
  }

  /** The characters Python's `str.isspace()` and the regular expression `\s`
      treat as whitespace (including the ideographic space U+3000). */
  predicate IsSpace(c: char)
  {
    c == ' ' || c == '\t' || c == '\n' || c == '\r' || c == '\U{000B}' || c == '\U{000C}'
    || ('\U{001C}' <= c <= '\U{001F}') || c == '\U{0085}' || c == '\U{00A0}' || c == '\U{1680}'
    || ('\U{2000}' <= c <= '\U{200A}') || c == '\U{2028}' || c == '\U{2029}'
    || c == '\U{202F}' || c == '\U{205F}' || c == '\U{3000}'
  }

  /** `re.sub(r"\s+", "", s)`: every whitespace character deleted. */
  function StripWhitespace(s: string): (r: string)
    ensures |r| <= |s|
    ensures forall k :: 0 <= k < |r| ==> !IsSpace(r[k])
  {
    if s == [] then []
    else if IsSpace(s[0]) then StripWhitespace(s[1..])
    else [s[0]] + StripWhitespace(s[1..])
  }

  /** Deleting whitespace twice deletes nothing more, and keeps every other character. */
  lemma {:induction false} StripWhitespaceKeeps(s: string)
    ensures StripWhitespace(StripWhitespace(s)) == StripWhitespace(s)
    ensures (forall k :: 0 <= k < |s| ==> !IsSpace(s[k])) ==> StripWhitespace(s) == s
  {
    if s != [] {
      StripWhitespaceKeeps(s[1..]);
      if !IsSpace(s[0]) {
        var t := StripWhitespace(s[1..]);
        assert ([s[0]] + t)[1..] == t;
      }
      if forall k :: 0 <= k < |s| ==> !IsSpace(s[k]) {
        assert forall k :: 0 <= k < |s[1..]| ==> !IsSpace(s[1..][k]) by {
          forall k | 0 <= k < |s[1..]| ensures !IsSpace(s[1..][k]) { assert s[1..][k] == s[k + 1]; }
        }
      }
    }
  }

  // ---------------------------------------------------------------------------
  // Two-decimal rounding: Python's round(x, 2) and pandas' .round(2)
  // ---------------------------------------------------------------------------

  /** `x` is a whole number of cents. */
  predicate IsCents(x: real)
  {
    (x * 100.0).Floor as real == x * 100.0
  }

  /** Round to two decimals, ties to the even cent, on exact reals. */
  function Round2(x: real): real
  {
    var y := x * 100.0;
    var f := y.Floor;
    var n := if y - f as real < 0.5 then f
             else if y - f as real > 0.5 then f + 1
             else if f % 2 == 0 then f
             else f + 1;
    n as real / 100.0
  }

  /** Round2 yields whole cents, lies within half a cent of its argument, and
      leaves an amount that already is whole cents unchanged. */
  lemma Round2Spec(x: real)
    ensures IsCents(Round2(x))
    ensures -0.005 <= Round2(x) - x <= 0.005
    ensures IsCents(x) ==> Round2(x) == x
  {
    var y := x * 100.0;
    var f := y.Floor;
    var n := if y - f as real < 0.5 then f
             else if y - f as real > 0.5 then f + 1
             else if f % 2 == 0 then f
             else f + 1;
    assert Round2(x) == n as real / 100.0;
    assert Round2(x) * 100.0 == n as real;
    assert (n as real).Floor == n;
  }

  /** A positive rounded amount comes from a positive amount; so does rounding
      never turn a non-positive amount positive. */
  lemma Round2Positive(x: real)
    ensures Round2(x) > 0.0 ==> x > 0.0
    ensures x == 0.0 ==> Round2(x) == 0.0
  {
    Round2Spec(x);
    var r := Round2(x);
    if r > 0.0 {
      var n := (r * 100.0).Floor;
      assert n as real == r * 100.0;
      assert n >= 1;
    }
    if x == 0.0 {
      assert IsCents(x);
    }
  }

  /** Whole cents are closed under addition. */
  lemma CentsAdd(a: real, b: real)
    requires IsCents(a) && IsCents(b)
    ensures IsCents(a + b)
  {
    var i := (a * 100.0).Floor;
    var j := (b * 100.0).Floor;
    assert (a + b) * 100.0 == (i + j) as real;
  }

  // ---------------------------------------------------------------------------
  // Sums
  // ---------------------------------------------------------------------------

  /** Sum of `f` over the rows of `s` (pandas' `sum`, empty sum 0). */
  function SumOf<T>(s: seq<T>, f: T -> real): real
  {
    if s == [] then 0.0 else f(s[0]) + SumOf(s[1..], f)
  }

  lemma {:induction false} SumOfAppend<T>(a: seq<T>, b: seq<T>, f: T -> real)
    ensures SumOf(a + b, f) == SumOf(a, f) + SumOf(b, f)
  {
    if a == [] {
      assert a + b == b;
    } else {
      assert (a + b)[0] == a[0] && (a + b)[1..] == a[1..] + b;
      SumOfAppend(a[1..], b, f);
    }
  }

  /** A sum of whole-cent amounts is whole cents. */
  lemma {:induction false} SumOfCents<T>(s: seq<T>, f: T -> real)
    requires forall x :: x in s ==> IsCents(f(x))
    ensures IsCents(SumOf(s, f))
  {
    if s == [] {
      assert IsCents(0.0);
    } else {
      SumOfCents(s[1..], f);
      CentsAdd(f(s[0]), SumOf(s[1..], f));
    }
  }

  /** Sum of `f` over the rows whose `key` is `k` (one cell of a pandas groupby-sum). */
  function SumWithKey<T, K(==)>(s: seq<T>, key: T -> K, k: K, f: T -> real): real
  {
    if s == [] then 0.0
    else (if key(s[0]) == k then f(s[0]) else 0.0) + SumWithKey(s[1..], key, k, f)
  }

  /** The group sums for the keys in `keys`, added up. */
  function SumOverKeys<T, K(==)>(s: seq<T>, key: T -> K, keys: seq<K>, f: T -> real): real
  {
    if keys == [] then 0.0
    else SumWithKey(s, key, keys[0], f) + SumOverKeys(s, key, keys[1..], f)
  }

  predicate NoDups<T(==)>(s: seq<T>)
  {
    forall i, j :: 0 <= i < j < |s| ==> s[i] != s[j]
  }

  lemma {:induction false} SumOverKeysOfEmpty<T, K>(key: T -> K, keys: seq<K>, f: T -> real)
    ensures SumOverKeys([], key, keys, f) == 0.0
  {
    if keys != [] { SumOverKeysOfEmpty(key, keys[1..], f); }
  }

  lemma {:induction false} SumOverKeysStep<T, K>(s: seq<T>, key: T -> K, keys: seq<K>, f: T -> real)
    requires s != [] && NoDups(keys)
    ensures SumOverKeys(s, key, keys, f)
            == SumOverKeys(s[1..], key, keys, f) + (if key(s[0]) in keys then f(s[0]) else 0.0)
  {
    if keys != [] {
      assert NoDups(keys[1..]) by {
        forall i, j | 0 <= i < j < |keys[1..]| ensures keys[1..][i] != keys[1..][j] {
          assert keys[1..][i] == keys[i + 1] && keys[1..][j] == keys[j + 1];
        }
      }
      SumOverKeysStep(s, key, keys[1..], f);
      if key(s[0]) == keys[0] {
        assert key(s[0]) !in keys[1..] by {
          forall j | 0 <= j < |keys[1..]| ensures keys[1..][j] != keys[0] { assert keys[1..][j] == keys[j + 1]; }
        }
      }
      assert key(s[0]) in keys <==> key(s[0]) == keys[0] || key(s[0]) in keys[1..] by {
        assert keys == [keys[0]] + keys[1..];
      }
    }
  }

  /** Grouping by a key and adding up the group sums gives back the total: the
      groups partition the rows when every row's key is listed exactly once. */
  lemma {:induction false} SumPartition<T, K>(s: seq<T>, key: T -> K, keys: seq<K>, f: T -> real)
    requires NoDups(keys)
    requires forall x :: x in s ==> key(x) in keys
    ensures SumOverKeys(s, key, keys, f) == SumOf(s, f)
  {
    if s == [] {
      SumOverKeysOfEmpty(key, keys, f);
    } else {
      SumOverKeysStep(s, key, keys, f);
      assert forall x :: x in s[1..] ==> x in s;
      SumPartition(s[1..], key, keys, f);
    }
  }

  /** Rows whose group sums are all whole cents have whole-cent group sums. */
  lemma {:induction false} SumWithKeyCents<T, K>(s: seq<T>, key: T -> K, k: K, f: T -> real)
    requires forall x :: x in s ==> IsCents(f(x))
    ensures IsCents(SumWithKey(s, key, k, f))
  {
    if s == [] {
      assert IsCents(0.0);
    } else {
      SumWithKeyCents(s[1..], key, k, f);
      assert IsCents(0.0);
      CentsAdd(if key(s[0]) == k then f(s[0]) else 0.0, SumWithKey(s[1..], key, k, f));
    }
  }

  // ---------------------------------------------------------------------------
  // Keep-first de-duplication: pandas' drop_duplicates(subset=...) / drop_duplicates()
  // ---------------------------------------------------------------------------

  /** No row before index `i` shares its key with row `i`. */
  predicate FirstWithKey<T, K(==)>(s: seq<T>, key: T -> K, i: int)
    requires 0 <= i < |s|
  {
    forall j :: 0 <= j < i ==> key(s[j]) != key(s[i])
  }

  /** Keep the first row of every key not yet in `seen`, in order. */
  function DedupFrom<T, K(==)>(s: seq<T>, key: T -> K, seen: set<K>): (r: seq<T>)
    ensures |r| <= |s|
  {
    if s == [] then []
    else if key(s[0]) in seen then DedupFrom(s[1..], key, seen)
    else [s[0]] + DedupFrom(s[1..], key, seen + {key(s[0])})
  }

  /** De-duplication only keeps rows of its input. */
  lemma {:induction false} DedupFromSubset<T, K>(s: seq<T>, key: T -> K, seen: set<K>)
    ensures forall x :: x in DedupFrom(s, key, seen) ==> x in s
  {
    if s != [] {
      var seen' := if key(s[0]) in seen then seen else seen + {key(s[0])};
      DedupFromSubset(s[1..], key, seen');
      assert forall x :: x in s[1..] ==> x in s;
    }
  }

  /** `drop_duplicates(subset=key)` with the default keep='first'. */
  function DedupBy<T, K(==)>(s: seq<T>, key: T -> K): seq<T>
  {
    DedupFrom(s, key, {})
  }

  /** `drop_duplicates()` on whole rows. */
  function Distinct<T(==)>(s: seq<T>): seq<T>
  {
    DedupBy(s, Identity<T>)
  }

  function Identity<T>(x: T): T { x }

  /** De-duplication never keeps a key twice, nor a key already seen. */
  lemma {:induction false} DedupFromKeys<T, K>(s: seq<T>, key: T -> K, seen: set<K>)
    ensures forall k :: 0 <= k < |DedupFrom(s, key, seen)| ==> key(DedupFrom(s, key, seen)[k]) !in seen
    ensures forall i, j :: 0 <= i < j < |DedupFrom(s, key, seen)| ==>
      key(DedupFrom(s, key, seen)[i]) != key(DedupFrom(s, key, seen)[j])
  {
    if s != [] && key(s[0]) in seen {
      DedupFromKeys(s[1..], key, seen);
    } else if s != [] {
      var k0 := key(s[0]);
      DedupFromKeys(s[1..], key, seen + {k0});
      var t := DedupFrom(s[1..], key, seen + {k0});
      var r := DedupFrom(s, key, seen);
      assert r == [s[0]] + t;
      forall k | 0 <= k < |r| ensures key(r[k]) !in seen {
        if k > 0 { assert r[k] == t[k - 1]; }
      }
      forall i, j | 0 <= i < j < |r| ensures key(r[i]) != key(r[j]) {
        assert r[j] == t[j - 1];
        if i > 0 { assert r[i] == t[i - 1]; }
      }
    }
  }

  /** Every kept row is the first row of its key (stated for the `k`-th kept row). */
  lemma {:induction false} DedupFromSoundAt<T, K>(s: seq<T>, key: T -> K, seen: set<K>, k: nat)
    returns (i: nat)
    requires k < |DedupFrom(s, key, seen)|
    ensures i < |s| && s[i] == DedupFrom(s, key, seen)[k] && FirstWithKey(s, key, i)
    ensures key(s[i]) !in seen
  {
    var k0 := key(s[0]);
    var seen' := if k0 in seen then seen else seen + {k0};
    var t := DedupFrom(s[1..], key, seen');
    var r := DedupFrom(s, key, seen);
    if k0 !in seen && k == 0 {
      i := 0;
    } else {
      var kt := if k0 in seen then k else k - 1;
      assert r[kt + (if k0 in seen then 0 else 1)] == t[kt];
      var i' := DedupFromSoundAt(s[1..], key, seen', kt);
      i := i' + 1;
      assert s[i] == s[1..][i'];
      assert FirstWithKey(s, key, i) by {
        forall j | 0 <= j < i ensures key(s[j]) != key(s[i]) {
          if j > 0 { assert s[j] == s[1..][j - 1]; }
        }
      }
    }
  }

  /** The first row of every key not already seen is kept. */
  lemma {:induction false} DedupFromComplete<T, K>(s: seq<T>, key: T -> K, seen: set<K>)
    ensures forall i :: 0 <= i < |s| && key(s[i]) !in seen && FirstWithKey(s, key, i) ==>
      s[i] in DedupFrom(s, key, seen)
  {
    if s != [] {
      var k0 := key(s[0]);
      var seen' := if k0 in seen then seen else seen + {k0};
      DedupFromComplete(s[1..], key, seen');
      var t := DedupFrom(s[1..], key, seen');
      var r := DedupFrom(s, key, seen);
      assert k0 in seen ==> r == t;
      assert k0 !in seen ==> r == [s[0]] + t;
      forall i | 0 <= i < |s| && key(s[i]) !in seen && FirstWithKey(s, key, i)
        ensures s[i] in r
      {
        if i > 0 {
          assert key(s[0]) != key(s[i]);
          assert s[1..][i - 1] == s[i];
          assert FirstWithKey(s[1..], key, i - 1) by {
            forall j | 0 <= j < i - 1 ensures key(s[1..][j]) != key(s[1..][i - 1]) {
              assert s[1..][j] == s[j + 1];
            }
          }
          assert s[i] in t;
        }
      }
    }
  }

  /** Every key of a row not already seen is still represented after de-duplication. */
  lemma {:induction false} DedupFromCovers<T, K>(s: seq<T>, key: T -> K, seen: set<K>)
    ensures forall i :: 0 <= i < |s| && key(s[i]) !in seen ==>
      exists y :: y in DedupFrom(s, key, seen) && key(y) == key(s[i])
  {
    if s != [] {
      var k0 := key(s[0]);
      var seen' := if k0 in seen then seen else seen + {k0};
      DedupFromCovers(s[1..], key, seen');
      var t := DedupFrom(s[1..], key, seen');
      var r := DedupFrom(s, key, seen);
      assert k0 in seen ==> r == t;
      assert k0 !in seen ==> r == [s[0]] + t;
      forall i | 0 <= i < |s| && key(s[i]) !in seen
        ensures exists y :: y in r && key(y) == key(s[i])
      {
        if key(s[i]) == k0 {
          assert r[0] == s[0];
        } else {
          assert s[1..][i - 1] == s[i];
          var y :| y in t && key(y) == key(s[1..][i - 1]);
          assert y in r;
        }
      }
    }
  }

  /** A boolean mask, whole-row de-duplication, then keep-first on `key`: the rows kept
      satisfy the mask, carry pairwise distinct keys, and every key of a masked row
      is represented. */
  lemma KeepFirstOfMask<T, K>(s: seq<T>, p: T -> bool, key: T -> K)
    ensures forall x :: x in DedupBy(Distinct(Filter(s, p)), key) ==> x in s && p(x)
    ensures forall i, j :: 0 <= i < j < |DedupBy(Distinct(Filter(s, p)), key)| ==>
              key(DedupBy(Distinct(Filter(s, p)), key)[i]) != key(DedupBy(Distinct(Filter(s, p)), key)[j])
    ensures forall x :: x in s && p(x) ==>
              exists y :: y in DedupBy(Distinct(Filter(s, p)), key) && key(y) == key(x)
  {
    var inside := Filter(s, p);
    var d := Distinct(inside);
    var r := DedupBy(d, key);
    KeepFirstKeys(d, key);
    forall x | x in r ensures x in s && p(x) {
      MaskedDistinct(s, p, x);
    }
    forall x | x in s && p(x) ensures exists y :: y in r && key(y) == key(x) {
      MaskedDistinct(s, p, x);
      KeepFirstCovers(d, key, x);
    }
  }

  lemma MaskedDistinct<T>(s: seq<T>, p: T -> bool, x: T)
    ensures x in Distinct(Filter(s, p)) <==> x in s && p(x)
  {
    DistinctSpec(Filter(s, p));
    FilterMember(s, p, x);
  }

  lemma KeepFirstKeys<T, K>(s: seq<T>, key: T -> K)
    ensures forall x :: x in DedupBy(s, key) ==> x in s
    ensures forall i, j :: 0 <= i < j < |DedupBy(s, key)| ==> key(DedupBy(s, key)[i]) != key(DedupBy(s, key)[j])
  {
    DedupFromKeys(s, key, {});
    DedupFromSubset(s, key, {});
  }

  lemma KeepFirstCovers<T, K>(s: seq<T>, key: T -> K, x: T)
    requires x in s
    ensures exists y :: y in DedupBy(s, key) && key(y) == key(x)
  {
    DedupFromCovers(s, key, {});
    var i :| 0 <= i < |s| && s[i] == x;
  }

  /** Whole-row de-duplication keeps exactly the rows of the input, once each. */
  lemma DistinctSpec<T>(s: seq<T>)
    ensures forall x :: x in Distinct(s) <==> x in s
    ensures NoDups(Distinct(s))
  {
    var id := Identity<T>;
    assert Distinct(s) == DedupFrom(s, id, {});
    DedupFromKeys(s, id, {});
    DedupFromCovers(s, id, {});
    DedupFromSubset(s, id, {});
    forall x | x in s ensures x in Distinct(s) {
      var i :| 0 <= i < |s| && s[i] == x;
      var y :| y in Distinct(s) && id(y) == id(s[i]);
    }
  }

  /** Whole-row de-duplication of rows that are already distinct changes nothing,
      so repeating it is idempotent. */
  lemma {:induction false} DistinctOfNoDups<T>(s: seq<T>)
    requires NoDups(s)
    ensures Distinct(s) == s
  {
    DistinctFromNoDups(s, {});
  }

  lemma {:induction false} DistinctFromNoDups<T>(s: seq<T>, seen: set<T>)
    requires NoDups(s)
    requires forall x :: x in s ==> x !in seen
    ensures DedupFrom(s, Identity<T>, seen) == s
  {
    if s != [] {
      assert NoDups(s[1..]) by {
        forall i, j | 0 <= i < j < |s[1..]| ensures s[1..][i] != s[1..][j] {
          assert s[1..][i] == s[i + 1] && s[1..][j] == s[j + 1];
        }
      }
      forall x | x in s[1..] ensures x !in seen + {s[0]} {
        var k :| 0 <= k < |s[1..]| && s[1..][k] == x;
        assert s[k + 1] == x;
      }
      DistinctFromNoDups(s[1..], seen + {s[0]});
    }
  }

  lemma DistinctIdempotent<T>(s: seq<T>)
    ensures Distinct(Distinct(s)) == Distinct(s)
  {
    DistinctSpec(s);
    DistinctOfNoDups(Distinct(s));
  }

  /** Filtering rows keeps their order (used for pandas boolean masks). */
  function Filter<T>(s: seq<T>, p: T -> bool): (r: seq<T>)
    ensures |r| <= |s|
  {
    if s == [] then [] else (if p(s[0]) then [s[0]] else []) + Filter(s[1..], p)
  }

  /** A row survives a boolean mask exactly when it is a row that satisfies the mask. */
  lemma {:induction false} FilterMember<T>(s: seq<T>, p: T -> bool, x: T)
    ensures x in Filter(s, p) <==> x in s && p(x)
  {
    if s != [] {
      FilterMember(s[1..], p, x);
      assert s == [s[0]] + s[1..];
    }
  }

  lemma FilterSound<T>(s: seq<T>, p: T -> bool)
    ensures forall k :: 0 <= k < |Filter(s, p)| ==> Filter(s, p)[k] in s && p(Filter(s, p)[k])
  {
    forall k | 0 <= k < |Filter(s, p)| ensures Filter(s, p)[k] in s && p(Filter(s, p)[k]) {
      FilterMember(s, p, Filter(s, p)[k]);
    }
  }

  lemma {:induction false} FilterAppend<T>(a: seq<T>, b: seq<T>, p: T -> bool)
    ensures Filter(a + b, p) == Filter(a, p) + Filter(b, p)
  {
    if a == [] {
      assert a + b == b;
    } else {
      assert (a + b)[0] == a[0] && (a + b)[1..] == a[1..] + b;
      FilterAppend(a[1..], b, p);
      var head := if p(a[0]) then [a[0]] else [];
      calc {
        Filter(a + b, p);
        head + Filter(a[1..] + b, p);
        head + (Filter(a[1..], p) + Filter(b, p));
        (head + Filter(a[1..], p)) + Filter(b, p);
      }
    }
  }

  lemma {:induction false} FilterNoDups<T>(s: seq<T>, p: T -> bool)
    requires NoDups(s)
    ensures NoDups(Filter(s, p))
  {
    if s != [] {
      assert NoDups(s[1..]) by {
        forall i, j | 0 <= i < j < |s[1..]| ensures s[1..][i] != s[1..][j] {
          assert s[1..][i] == s[i + 1] && s[1..][j] == s[j + 1];
        }
      }
      FilterNoDups(s[1..], p);
      assert s[0] !in s[1..] by {
        forall k | 0 <= k < |s[1..]| ensures s[1..][k] != s[0] { assert s[1..][k] == s[k + 1]; }
      }
      FilterMember(s[1..], p, s[0]);
      var t := Filter(s[1..], p);
      if p(s[0]) {
        var r := [s[0]] + t;
        forall i, j | 0 <= i < j < |r| ensures r[i] != r[j] {
          assert r[j] == t[j - 1];
          if i > 0 { assert r[i] == t[i - 1]; } else { assert t[j - 1] in t; }
        }
      }
    }
  }

  /** Apply `f` to every row (a derived column, a projection). */
  function MapSeq<T, U>(s: seq<T>, f: T -> U): (r: seq<U>)
    ensures |r| == |s| && forall k :: 0 <= k < |s| ==> r[k] == f(s[k])
  {
    seq(|s|, k requires 0 <= k < |s| => f(s[k]))
  }

  /** Once `p` holds of a row it holds of every later row (e.g. "fallback rows come last"). */
  predicate StaysTrue<T>(s: seq<T>, p: T -> bool)
  {
    forall i, j :: 0 <= i < j < |s| && p(s[i]) ==> p(s[j])
  }

  /** Rows failing `p` followed by rows satisfying it. */
  lemma StaysTrueAppend<T>(a: seq<T>, b: seq<T>, p: T -> bool)
    requires forall k :: 0 <= k < |a| ==> !p(a[k])
    requires forall k :: 0 <= k < |b| ==> p(b[k])
    ensures StaysTrue(a + b, p)
  {
    forall i, j | 0 <= i < j < |a + b| && p((a + b)[i]) ensures p((a + b)[j]) {
      if j >= |a| {
        assert (a + b)[j] == b[j - |a|];
      }
    }
  }

  lemma {:induction false} StaysTrueFilter<T>(s: seq<T>, p: T -> bool, q: T -> bool)
    requires StaysTrue(s, p)
    ensures StaysTrue(Filter(s, q), p)
  {
    if s != [] {
      assert StaysTrue(s[1..], p) by {
        forall i, j | 0 <= i < j < |s[1..]| && p(s[1..][i]) ensures p(s[1..][j]) {
          assert s[1..][i] == s[i + 1] && s[1..][j] == s[j + 1];
        }
      }
      StaysTrueFilter(s[1..], p, q);
      FilterSound(s[1..], q);
      var t := Filter(s[1..], q);
      var r := Filter(s, q);
      if q(s[0]) {
        assert r == [s[0]] + t;
        forall i, j | 0 <= i < j < |r| && p(r[i]) ensures p(r[j]) {
          assert r[j] == t[j - 1];
          if i == 0 {
            var m :| 0 <= m < |s[1..]| && s[1..][m] == t[j - 1];
            assert s[m + 1] == r[j];
          } else {
            assert r[i] == t[i - 1];
          }
        }
      } else {
        assert r == t;
      }
    }
  }

  lemma {:induction false} StaysTrueDedup<T, K>(s: seq<T>, key: T -> K, seen: set<K>, p: T -> bool)
    requires StaysTrue(s, p)
    ensures StaysTrue(DedupFrom(s, key, seen), p)
  {
    if s != [] {
      assert StaysTrue(s[1..], p) by {
        forall i, j | 0 <= i < j < |s[1..]| && p(s[1..][i]) ensures p(s[1..][j]) {
          assert s[1..][i] == s[i + 1] && s[1..][j] == s[j + 1];
        }
      }
      var k0 := key(s[0]);
      var seen' := if k0 in seen then seen else seen + {k0};
      StaysTrueDedup(s[1..], key, seen', p);
      DedupFromSubset(s[1..], key, seen');
      var t := DedupFrom(s[1..], key, seen');
      var r := DedupFrom(s, key, seen);
      if k0 !in seen {
        assert r == [s[0]] + t;
        forall i, j | 0 <= i < j < |r| && p(r[i]) ensures p(r[j]) {
          assert r[j] == t[j - 1];
          if i == 0 {
            assert t[j - 1] in t;
            var m :| 0 <= m < |s[1..]| && s[1..][m] == t[j - 1];
            assert s[m + 1] == r[j];
          } else {
            assert r[i] == t[i - 1];
          }
        }
      } else {
        assert r == t;
      }
    }
  }

  lemma {:induction false} SumOfAdd<T>(s: seq<T>, f: T -> real, g: T -> real, h: T -> real)
    requires forall x :: x in s ==> h(x) == f(x) + g(x)
    ensures SumOf(s, h) == SumOf(s, f) + SumOf(s, g)
  {
    if s != [] {
      assert forall x :: x in s[1..] ==> x in s;
      SumOfAdd(s[1..], f, g, h);
    }
  }

  /** A column that is a constant multiple of another sums to that multiple of its sum. */
  lemma {:induction false} SumOfScaled<T>(s: seq<T>, f: T -> real, g: T -> real, c: real)
    requires forall x :: x in s ==> f(x) == c * g(x)
    ensures SumOf(s, f) == c * SumOf(s, g)
  {
    if s != [] {
      assert forall x :: x in s[1..] ==> x in s;
      SumOfScaled(s[1..], f, g, c);
    }
  }

  /** Summing preserves a row-by-row comparison. */
  lemma {:induction false} SumOfMonotone<T>(s: seq<T>, f: T -> real, g: T -> real)
    requires forall x :: x in s ==> f(x) <= g(x)
    ensures SumOf(s, f) <= SumOf(s, g)
  {
    if s != [] {
      assert forall x :: x in s[1..] ==> x in s;
      SumOfMonotone(s[1..], f, g);
    }
  }

  lemma OneMore(n: real, x: real)
    ensures (n + 1.0) * x == x + n * x
  {
  }

  /** A sum of values of at least lo is at least |s| * lo. */
  lemma {:induction false} SumOfAtLeast<T>(s: seq<T>, f: T -> real, lo: real)
    requires forall x :: x in s ==> lo <= f(x)
    ensures |s| as real * lo <= SumOf(s, f)
  {
    if s != [] {
      assert forall x :: x in s[1..] ==> x in s;
      SumOfAtLeast(s[1..], f, lo);
      OneMoreAtLeast(|s[1..]| as real, |s| as real, lo, f(s[0]), SumOf(s[1..], f));
    } else {
      assert |s| as real * lo == 0.0 * lo == 0.0;
    }
  }

  /** A sum of values of at most hi is at most |s| * hi. */
  lemma {:induction false} SumOfAtMost<T>(s: seq<T>, f: T -> real, hi: real)
    requires forall x :: x in s ==> f(x) <= hi
    ensures SumOf(s, f) <= |s| as real * hi
  {
    if s != [] {
      assert forall x :: x in s[1..] ==> x in s;
      SumOfAtMost(s[1..], f, hi);
      OneMoreAtMost(|s[1..]| as real, |s| as real, hi, f(s[0]), SumOf(s[1..], f));
    } else {
      assert |s| as real * hi == 0.0 * hi == 0.0;
    }
  }

  lemma OneMoreAtLeast(n: real, m: real, lo: real, a: real, b: real)
    requires m == n + 1.0 && lo <= a && n * lo <= b
    ensures m * lo <= a + b
  {
    OneMore(n, lo);
  }

  lemma OneMoreAtMost(n: real, m: real, hi: real, a: real, b: real)
    requires m == n + 1.0 && a <= hi && b <= n * hi
    ensures a + b <= m * hi
  {
    OneMore(n, hi);
  }

  lemma ScaleSum(c: real, a: real, b: real)
    ensures c * (a + b) == c * a + c * b
  {
  }

  /** Weights times factors of at least lo sum to at least lo times the weights' sum. */
  lemma {:induction false} SumOfWeightedAtLeast<T>(s: seq<T>, w: T -> real, c: T -> real, lo: real)
    requires forall x :: x in s ==> c(x) >= lo * w(x)
    ensures lo * SumOf(s, w) <= SumOf(s, c)
  {
    if s != [] {
      assert forall x :: x in s[1..] ==> x in s;
      SumOfWeightedAtLeast(s[1..], w, c, lo);
      ScaleSum(lo, w(s[0]), SumOf(s[1..], w));
    }
  }

  /** Weights times factors of at most hi sum to at most hi times the weights' sum. */
  lemma {:induction false} SumOfWeightedAtMost<T>(s: seq<T>, w: T -> real, c: T -> real, hi: real)
    requires forall x :: x in s ==> c(x) <= hi * w(x)
    ensures SumOf(s, c) <= hi * SumOf(s, w)
  {
    if s != [] {
      assert forall x :: x in s[1..] ==> x in s;
      SumOfWeightedAtMost(s[1..], w, c, hi);
      ScaleSum(hi, w(s[0]), SumOf(s[1..], w));
    }
  }

  lemma {:induction false} SumWithKeyAdd<T, K>(s: seq<T>, key: T -> K, k: K, f: T -> real, g: T -> real, h: T -> real)
    requires forall x :: x in s ==> h(x) == f(x) + g(x)
    ensures SumWithKey(s, key, k, h) == SumWithKey(s, key, k, f) + SumWithKey(s, key, k, g)
  {
    if s != [] {
      assert forall x :: x in s[1..] ==> x in s;
      SumWithKeyAdd(s[1..], key, k, f, g, h);
    }
  }

  /** A group with a single row sums to that row's value. */
  lemma {:induction false} SumWithKeySingle<T, K>(s: seq<T>, key: T -> K, k: K, f: T -> real, i: nat)
    requires i < |s| && key(s[i]) == k
    requires forall j :: 0 <= j < |s| && j != i ==> key(s[j]) != k
    ensures SumWithKey(s, key, k, f) == f(s[i])
  {
    if i == 0 {
      SumWithKeyAbsent(s[1..], key, k, f);
    } else {
      assert key(s[0]) != k;
      SumWithKeySingle(s[1..], key, k, f, i - 1);
    }
  }

  lemma {:induction false} SumWithKeyAbsent<T, K>(s: seq<T>, key: T -> K, k: K, f: T -> real)
    requires forall j :: 0 <= j < |s| ==> key(s[j]) != k
    ensures SumWithKey(s, key, k, f) == 0.0
  {
    if s != [] {
      SumWithKeyAbsent(s[1..], key, k, f);
    }
  }

  // ---------------------------------------------------------------------------
  // File names, column checks and dictionary lookups
  // ---------------------------------------------------------------------------

  /** str.endswith */
  predicate EndsWith(s: string, suffix: string)
  {
    |suffix| <= |s| && s[|s| - |suffix|..] == suffix
  }

  /** Every required column is among the table's columns. */
  predicate HasColumns(required: seq<string>, columns: seq<string>)
  {
    forall c :: c in required ==> c in columns
  }

  /** The required columns a table lacks, in the order they are required. */
  function MissingColumns(required: seq<string>, columns: seq<string>): (r: seq<string>)
    ensures forall c :: c in r <==> c in required && c !in columns
    ensures r == [] <==> HasColumns(required, columns)
  {
    var missing := Filter(required, c => c !in columns);
    forall c ensures c in missing <==> c in required && c !in columns {
      FilterMember(required, c => c !in columns, c);
    }
    assert missing != [] ==> missing[0] in missing;
    missing
  }

  /** dict.get(k, default) */
  function Get<K, V>(m: map<K, V>, k: K, default: V): (r: V)
    ensures k in m ==> r == m[k]
    ensures k !in m ==> r == default
  {
    if k in m then m[k] else default
  }

  /** str.lstrip(): the leading whitespace removed. */
  function TrimStart(s: string): (r: string)
    ensures |r| <= |s| && r == s[|s| - |r|..]
    ensures r != [] ==> !IsSpace(r[0])
    ensures forall k :: 0 <= k < |s| - |r| ==> IsSpace(s[k])
  {
    if s != [] && IsSpace(s[0]) then
      var r := TrimStart(s[1..]);
      assert forall k :: 1 <= k < |s| - |r| ==> s[k] == s[1..][k - 1];
      r
    else s
  }

  /** str.rstrip(): the trailing whitespace removed. */
  function TrimEnd(s: string): (r: string)
    ensures |r| <= |s| && r == s[..|r|]
    ensures r != [] ==> !IsSpace(r[|r| - 1])
    ensures forall k :: |r| <= k < |s| ==> IsSpace(s[k])
  {
    if s != [] && IsSpace(s[|s| - 1]) then
      var r := TrimEnd(s[..|s| - 1]);
      assert forall k :: |r| <= k < |s| - 1 ==> s[k] == s[..|s| - 1][k];
      r
    else s
  }

  /** str.strip() */
  function Trim(s: string): string
  {
    TrimEnd(TrimStart(s))
  }

  /** A string strips to "" exactly when it is all whitespace. */
  lemma TrimEmptyIff(s: string)
    ensures Trim(s) == "" <==> forall k :: 0 <= k < |s| ==> IsSpace(s[k])
  {
    var t := TrimStart(s);
    if Trim(s) == "" {
      assert |t| == 0;
    }
  }

  function LowerChar(c: char): char
  {
    if 'A' <= c <= 'Z' then (c as int + 32) as char else c
  }

  /** str.lower, on the ASCII letters. */
  function Lower(s: string): (r: string)
    ensures |r| == |s| && forall k :: 0 <= k < |s| ==> r[k] == LowerChar(s[k])
  {
    seq(|s|, k requires 0 <= k < |s| => LowerChar(s[k]))
  }

  // ---------------------------------------------------------------------------
  // Python's ordering of str: code-point lexicographic, a proper prefix first
  // ---------------------------------------------------------------------------

  predicate LexLess(a: string, b: string)
    decreases |a|
  {
    |b| > 0 && (|a| == 0 || a[0] < b[0] || (a[0] == b[0] && LexLess(a[1..], b[1..])))
  }

  lemma {:induction false} LexIrreflexive(a: string)
    ensures !LexLess(a, a)
    decreases |a|
  {
    if |a| > 0 { LexIrreflexive(a[1..]); }
  }

  lemma {:induction false} LexTransitive(a: string, b: string, c: string)
    requires LexLess(a, b) && LexLess(b, c)
    ensures LexLess(a, c)
    decreases |a|
  {
    if |a| > 0 && a[0] == b[0] && b[0] == c[0] {
      LexTransitive(a[1..], b[1..], c[1..]);
    }
  }

  lemma {:induction false} LexTotal(a: string, b: string)
    ensures a == b || LexLess(a, b) || LexLess(b, a)
    decreases |a|
  {
    if |a| > 0 && |b| > 0 && a[0] == b[0] {
      LexTotal(a[1..], b[1..]);
      if a[1..] == b[1..] {
        assert a == [a[0]] + a[1..] && b == [b[0]] + b[1..];
      }
    }
  }

  /** Every finite non-empty set of strings has a least element. */
  lemma {:induction false} LexMinExists(s: set<string>)
    requires s != {}
    ensures exists m :: IsLeast(m, s)
    decreases |s|
  {
    var y :| y in s;
    var rest := s - {y};
    if rest == {} {
      assert s == {y};
      assert IsLeast(y, s);
    } else {
      LexMinExists(rest);
      var m :| IsLeast(m, rest);
      LexTotal(m, y);
      if LexLess(m, y) {
        forall x | x in s && x != m ensures LexLess(m, x) {
          if x != y { assert x in rest; }
        }
        assert IsLeast(m, s);
      } else {
        assert LexLess(y, m);
        forall x | x in s && x != y ensures LexLess(y, x) {
          if x != m { assert x in rest; LexTransitive(y, m, x); }
        }
        assert IsLeast(y, s);
      }
    }
  }

  /** `m` is the least element of `s` in Python's string order. */
  predicate IsLeast(m: string, s: set<string>)
  {
    m in s && forall x :: x in s && x != m ==> LexLess(m, x)
  }

  lemma LeastUnique(m: string, n: string, s: set<string>)
    requires IsLeast(m, s) && IsLeast(n, s)
    ensures m == n
  {
    if m != n {
      LexTransitive(m, n, m);
      LexIrreflexive(m);
    }
  }

  /** sorted(s) for a set of strings. */
  ghost function SortedSet(s: set<string>): seq<string>
    decreases |s|
  {
    if s == {} then []
    else
      LexMinExists(s);
      var m :| IsLeast(m, s);
      [m] + SortedSet(s - {m})
  }

  /** sorted(s) lists every element of `s` once, in strictly ascending order. */
  lemma {:induction false} SortedSetSpec(s: set<string>)
    ensures |SortedSet(s)| == |s|
    ensures forall x :: x in SortedSet(s) <==> x in s
    ensures forall i, j :: 0 <= i < j < |SortedSet(s)| ==> LexLess(SortedSet(s)[i], SortedSet(s)[j])
    decreases |s|
  {
    if s != {} {
      LexMinExists(s);
      var m :| IsLeast(m, s);
      var rest := SortedSet(s - {m});
      SortedSetSpec(s - {m});
      forall m' | IsLeast(m', s) ensures m' == m { LeastUnique(m', m, s); }
      assert SortedSet(s) == [m] + rest;
      forall i, j | 0 <= i < j < |SortedSet(s)| ensures LexLess(SortedSet(s)[i], SortedSet(s)[j]) {
        if i == 0 {
          assert SortedSet(s)[j] == rest[j - 1] && rest[j - 1] in rest;
        } else {
          assert SortedSet(s)[i] == rest[i - 1] && SortedSet(s)[j] == rest[j - 1];
        }
      }
    }
  }

  /** Computes sorted(s) by repeatedly taking the least remaining element. */
  method SortSet(s: set<string>) returns (r: seq<string>)
    ensures r == SortedSet(s)
  {
    r := [];
    var rest := s;
    while rest != {}
      invariant r + SortedSet(rest) == SortedSet(s)
      decreases |rest|
    {
      LexMinExists(rest);
      var m :| IsLeast(m, rest);
      forall m' | IsLeast(m', rest) ensures m' == m { LeastUnique(m', m, rest); }
      assert SortedSet(rest) == [m] + SortedSet(rest - {m});
      r := r + [m];
      rest := rest - {m};
    }
  }
}
