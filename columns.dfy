/** Column-name standardisation shared by app007.py and app002.py: a table's column
    list is renamed in place (`rename(columns=..., inplace=True)`) from the first alias
    of each standard name that the table has. */
module Columns {
  import opened Common

  /** One entry of an alias table: a standard column name, the names it may appear
      under (in priority order), and whether a table with none of them is refused. */
  datatype Alias = Alias(standard: string, names: seq<string>, required: bool)

  /** The outcome of resolving an alias table, with the column list at that point. */
  datatype Resolution =
    | Resolved(columns: seq<string>)
    | Unresolved(standard: string, columns: seq<string>)

  /** [n for n in names if n in columns][0], when there is one. */
  function FirstPresent(names: seq<string>, columns: seq<string>): (r: Option<string>)
    ensures r.None? <==> forall n :: n in names ==> n !in columns
    ensures r.Some? ==> exists k :: 0 <= k < |names| && names[k] == r.value && r.value in columns
                                   && forall j :: 0 <= j < k ==> names[j] !in columns
  {
    if names == [] then None
    else if names[0] in columns then Some(names[0])
    else
      var r := FirstPresent(names[1..], columns);
      assert forall n :: n in names ==> n == names[0] || n in names[1..];
      assert forall k :: 0 <= k < |names[1..]| ==> names[1..][k] == names[k + 1];
      r
  }

  /** The column list after renaming `from` to `to`. */
  function Renamed(columns: seq<string>, from: string, to: string): (r: seq<string>)
    ensures |r| == |columns|
    ensures forall i :: 0 <= i < |r| ==> r[i] == if columns[i] == from then to else columns[i]
  {
    seq(|columns|, i requires 0 <= i < |columns| => if columns[i] == from then to else columns[i])
  }

  /** Renaming puts `to` where `from` was, removes `from`, and leaves every other name. */
  lemma RenameEffect(columns: seq<string>, from: string, to: string, x: string)
    ensures x in Renamed(columns, from, to) <==>
      (x == to && (from in columns || to in columns)) || (x != from && x != to && x in columns)
  {
    var r := Renamed(columns, from, to);
    if x in r {
      var i :| 0 <= i < |r| && r[i] == x;
      assert columns[i] in columns;
    }
    if x == to && from in columns {
      var i :| 0 <= i < |columns| && columns[i] == from;
      assert r[i] == to;
    }
    if x in columns && (x == to || x != from) {
      var i :| 0 <= i < |columns| && columns[i] == x;
      assert r[i] == x;
    }
  }

  /** One entry's rename: its first present alias becomes the standard name. */
  function Standardise(columns: seq<string>, a: Alias): seq<string>
  {
    match FirstPresent(a.names, columns)
    case Some(found) => Renamed(columns, found, a.standard)
    case None => columns
  }

  /** The alias loop: each entry renames its first present alias to the standard
      name; an entry with no alias stops the loop when it is required. */
  function Resolve(columns: seq<string>, aliases: seq<Alias>): Resolution
    decreases |aliases|
  {
    if aliases == [] then Resolved(columns)
    else if aliases[0].required && FirstPresent(aliases[0].names, columns).None? then
      Unresolved(aliases[0].standard, columns)
    else Resolve(Standardise(columns, aliases[0]), aliases[1..])
  }

  function AllNames(a: Alias): seq<string> { [a.standard] + a.names }

  /** No name belongs to two entries of the table. */
  predicate Separate(aliases: seq<Alias>)
  {
    forall i, j, x :: 0 <= i < j < |aliases| && x in AllNames(aliases[i]) ==> x !in AllNames(aliases[j])
  }

  /** One entry's rename touches only that entry's names and gives it its standard name
      when an alias is present. */
  lemma StandardiseEffect(columns: seq<string>, a: Alias)
    ensures forall x :: x !in AllNames(a) ==> (x in Standardise(columns, a) <==> x in columns)
    ensures FirstPresent(a.names, columns).Some? ==> a.standard in Standardise(columns, a)
    ensures FirstPresent(a.names, columns).None? ==> Standardise(columns, a) == columns
  {
    if FirstPresent(a.names, columns).Some? {
      var found := FirstPresent(a.names, columns).value;
      forall x | x !in AllNames(a) ensures x in Standardise(columns, a) <==> x in columns {
        RenameEffect(columns, found, a.standard, x);
      }
      RenameEffect(columns, found, a.standard, a.standard);
    }
  }

  /** The rest of a separate table is separate and sees the same aliases after one step. */
  lemma ResolveStep(columns: seq<string>, aliases: seq<Alias>)
    requires Separate(aliases) && aliases != []
    ensures Separate(aliases[1..])
    ensures forall k :: 0 <= k < |aliases[1..]| ==>
      FirstPresent(aliases[1..][k].names, Standardise(columns, aliases[0])) == FirstPresent(aliases[1..][k].names, columns)
    ensures forall k, x :: 0 <= k < |aliases[1..]| && x in AllNames(aliases[1..][k]) ==>
      (x in Standardise(columns, aliases[0]) <==> x in columns)
  {
    var rest := aliases[1..];
    forall i, j, x | 0 <= i < j < |rest| && x in AllNames(rest[i]) ensures x !in AllNames(rest[j]) {
      assert rest[i] == aliases[i + 1] && rest[j] == aliases[j + 1];
    }
    StandardiseEffect(columns, aliases[0]);
    forall k | 0 <= k < |rest|
      ensures FirstPresent(rest[k].names, Standardise(columns, aliases[0])) == FirstPresent(rest[k].names, columns)
    {
      assert rest[k] == aliases[k + 1];
      forall x | x in rest[k].names ensures x !in AllNames(aliases[0]) {
        assert x in AllNames(aliases[k + 1]);
      }
      FirstPresentSame(rest[k].names, columns, Standardise(columns, aliases[0]));
    }
    forall k, x | 0 <= k < |rest| && x in AllNames(rest[k]) ensures x !in AllNames(aliases[0]) {
      assert rest[k] == aliases[k + 1];
    }
  }

  /** With separate entries, resolution fails exactly when some required entry has no
      alias in the table. */
  lemma {:induction false} ResolveFails(columns: seq<string>, aliases: seq<Alias>)
    requires Separate(aliases)
    ensures Resolve(columns, aliases).Unresolved? <==>
      exists k :: 0 <= k < |aliases| && aliases[k].required && FirstPresent(aliases[k].names, columns).None?
    decreases |aliases|
  {
    if aliases != [] && !(aliases[0].required && FirstPresent(aliases[0].names, columns).None?) {
      var next := Standardise(columns, aliases[0]);
      ResolveStep(columns, aliases);
      ResolveFails(next, aliases[1..]);
      assert forall k :: 0 <= k < |aliases[1..]| ==> aliases[1..][k] == aliases[k + 1];
      if exists k :: 0 <= k < |aliases| && aliases[k].required && FirstPresent(aliases[k].names, columns).None? {
        var k :| 0 <= k < |aliases| && aliases[k].required && FirstPresent(aliases[k].names, columns).None?;
        assert k >= 1;
        assert aliases[1..][k - 1] == aliases[k];
      }
    }
  }

  /** A column that no entry names is kept or absent as it was. */
  lemma {:induction false} ResolveKeeps(columns: seq<string>, aliases: seq<Alias>, x: string)
    requires Separate(aliases)
    requires forall k :: 0 <= k < |aliases| ==> x !in AllNames(aliases[k])
    ensures x in Resolve(columns, aliases).columns <==> x in columns
    decreases |aliases|
  {
    if aliases != [] && !(aliases[0].required && FirstPresent(aliases[0].names, columns).None?) {
      ResolveStep(columns, aliases);
      StandardiseEffect(columns, aliases[0]);
      assert forall k :: 0 <= k < |aliases[1..]| ==> aliases[1..][k] == aliases[k + 1];
      ResolveKeeps(Standardise(columns, aliases[0]), aliases[1..], x);
    }
  }

  /** On success, an entry with an alias present has its standard name, and an entry
      whose standard name is one of its aliases has it only when some alias is present. */
  lemma {:induction false} ResolveStandards(columns: seq<string>, aliases: seq<Alias>, k: nat)
    requires Separate(aliases) && k < |aliases|
    requires Resolve(columns, aliases).Resolved?
    ensures FirstPresent(aliases[k].names, columns).Some? ==> aliases[k].standard in Resolve(columns, aliases).columns
    ensures aliases[k].standard in aliases[k].names && FirstPresent(aliases[k].names, columns).None? ==>
      aliases[k].standard !in Resolve(columns, aliases).columns
    decreases |aliases|
  {
    if k == 0 {
      ResolveFirstStandard(columns, aliases);
    } else {
      ResolveStep(columns, aliases);
      assert aliases[1..][k - 1] == aliases[k];
      ResolveStandards(Standardise(columns, aliases[0]), aliases[1..], k - 1);
    }
  }

  /** The first entry's standard name survives the later renames of a separate table. */
  lemma ResolveFirstStandard(columns: seq<string>, aliases: seq<Alias>)
    requires Separate(aliases) && aliases != []
    requires Resolve(columns, aliases).Resolved?
    ensures FirstPresent(aliases[0].names, columns).Some? ==> aliases[0].standard in Resolve(columns, aliases).columns
    ensures aliases[0].standard in aliases[0].names && FirstPresent(aliases[0].names, columns).None? ==>
      aliases[0].standard !in Resolve(columns, aliases).columns
  {
    var a := aliases[0];
    var next := Standardise(columns, a);
    ResolveStep(columns, aliases);
    StandardiseEffect(columns, a);
    if FirstPresent(a.names, columns).Some? || a.standard in a.names {
      // Later entries never name a.standard, so the rest keeps it as it is now.
      forall j | 0 <= j < |aliases[1..]| ensures a.standard !in AllNames(aliases[1..][j]) {
        assert aliases[1..][j] == aliases[j + 1];
        assert a.standard in AllNames(aliases[0]);
      }
      ResolveKeeps(next, aliases[1..], a.standard);
    }
  }

  /** An alias search gives the same answer on two tables that agree on those names. */
  lemma FirstPresentSame(names: seq<string>, c1: seq<string>, c2: seq<string>)
    requires forall x :: x in names ==> (x in c1 <==> x in c2)
    ensures FirstPresent(names, c1) == FirstPresent(names, c2)
  {
    if names != [] {
      assert forall x :: x in names[1..] ==> x in names;
      FirstPresentSame(names[1..], c1, c2);
    }
  }

  /** A table's column list, renamed in place. */
  class Frame {
    var columns: seq<string>

    constructor (columns: seq<string>)
      ensures this.columns == columns
    {
      this.columns := columns;
    }

    predicate Has(name: string)
      reads this
    {
      name in columns
    }

    /** rename(columns={from: to}, inplace=True) */
    method Rename(from: string, to: string)
      modifies this
      ensures columns == Renamed(old(columns), from, to)
    {
      columns := Renamed(columns, from, to);
    }

    /** The loop over an alias table, stopping at the first required entry with no alias. */
    method ResolveAliases(aliases: seq<Alias>) returns (r: Resolution)
      modifies this
      ensures r == Resolve(old(columns), aliases)
      ensures columns == r.columns
    {
      var i := 0;
      while i < |aliases|
        invariant 0 <= i <= |aliases|
        invariant Resolve(old(columns), aliases) == Resolve(columns, aliases[i..])
      {
        var a := aliases[i];
        assert aliases[i..][1..] == aliases[i + 1..];
        var found := FirstPresent(a.names, columns);
        if found.Some? {
          Rename(found.value, a.standard);
        } else if a.required {
          return Unresolved(a.standard, columns);
        }
        i := i + 1;
      }
      return Resolved(columns);
    }
  }
}
