/**
 * The exploratory split of the data frame's columns into binary and non-binary
 * variables: each column's distinct values are inspected and its name is appended
 * to one of two lists, after which the notebook asserts that the two lists
 * together account for every column.
 */
module Columns {

  /** A data-frame column: its header and the float64 values stored in it. */
  datatype Column = Column(name: string, values: seq<real>)

  /** No value occurs twice in `s`. */
  predicate NoDuplicates(s: seq<real>)
  {
    forall i, j :: 0 <= i < j < |s| ==> s[i] != s[j]
  }

  /**
   * The distinct values of a column in order of first appearance, as
   * `Series.unique()` returns them.
   */
  function Unique(s: seq<real>): (u: seq<real>)
    ensures NoDuplicates(u)
    ensures forall x :: x in u <==> x in s
  {
    if s == [] then []
    else
      var u := Unique(s[..|s| - 1]);
      assert forall x :: x in s <==> x in s[..|s| - 1] || x == s[|s| - 1] by {
        assert s == s[..|s| - 1] + [s[|s| - 1]];
      }
      if s[|s| - 1] in u then u else u + [s[|s| - 1]]
  }

  /**
   * `Unique` keeps the order of first appearance: an earlier distinct value occurs in
   * the column before the first occurrence of any later one.
   */
  lemma {:induction false} UniqueInOrder(s: seq<real>, i: nat, j: nat)
    requires i < j < |Unique(s)|
    ensures exists p :: 0 <= p < |s| && s[p] == Unique(s)[i] && Unique(s)[j] !in s[..p + 1]
  {
    var n := |s|;
    var init, last := s[..n - 1], s[n - 1];
    var u, ui := Unique(s), Unique(s[..n - 1]);
    if j < |ui| {
      assert u[i] == ui[i] && u[j] == ui[j];
      UniqueInOrder(init, i, j);
      var p :| 0 <= p < |init| && init[p] == ui[i] && ui[j] !in init[..p + 1];
      assert s[..p + 1] == init[..p + 1];
    } else {
      assert u == ui + [last] && u[j] == last && last !in init;
      assert u[i] in init;
      var p :| 0 <= p < |init| && init[p] == u[i];
      assert s[..p + 1] == init[..p + 1];
    }
  }

  /**
   * The notebook's test: exactly two distinct values, and they include 0 and 1.
   * A column that passes holds both 0 and 1 and nothing else.
   */
  predicate IsBinary(values: seq<real>)
    ensures IsBinary(values) ==> 0.0 in values && 1.0 in values
    ensures IsBinary(values) ==> forall k :: 0 <= k < |values| ==> values[k] == 0.0 || values[k] == 1.0
  {
    var u := Unique(values);
    assert |u| == 2 ==> forall k :: 0 <= k < |values| ==> values[k] == u[0] || values[k] == u[1] by {
      if |u| == 2 {
        forall k | 0 <= k < |values|
          ensures values[k] == u[0] || values[k] == u[1]
        {
          assert values[k] in u;
        }
      }
    }
    |u| == 2 && 0.0 in u && 1.0 in u
  }

  /** A sequence without duplicates drawn from `s` is no longer than `s` has elements. */
  lemma {:induction false} DistinctWithin(u: seq<real>, s: set<real>)
    requires NoDuplicates(u)
    requires forall k :: 0 <= k < |u| ==> u[k] in s
    ensures |u| <= |s|
  {
    if u != [] {
      var last := u[|u| - 1];
      DistinctWithin(u[..|u| - 1], s - {last});
    }
  }

  /** A column is binary exactly when the set of its values is {0, 1}. */
  lemma BinaryIffZeroOne(values: seq<real>)
    ensures IsBinary(values) <==> (set x | x in values) == {0.0, 1.0}
  {
    var u := Unique(values);
    var present := set x | x in values;
    if present == {0.0, 1.0} {
      assert 0.0 in values && 1.0 in values;
      var i0 :| 0 <= i0 < |u| && u[i0] == 0.0;
      var i1 :| 0 <= i1 < |u| && u[i1] == 1.0;
      assert |u| >= 2;
      forall k | 0 <= k < |u|
        ensures u[k] == 0.0 || u[k] == 1.0
      {
        assert u[k] in values;
        assert u[k] in present;
      }
      DistinctWithin(u, {0.0, 1.0});
    }
  }

  /**
   * The names of the columns whose binary test gives `binary`, in column order:
   * `binary_variables` for true, `non_binary_variables` for false.
   */
  function NamesWhere(columns: seq<Column>, binary: bool): (names: seq<string>)
    ensures |names| <= |columns|
  {
    if columns == [] then []
    else
      var last := columns[|columns| - 1];
      NamesWhere(columns[..|columns| - 1], binary) + (if IsBinary(last.values) == binary then [last.name] else [])
  }

  /** All column names, in column order (`df.columns`). */
  function Names(columns: seq<Column>): (names: seq<string>)
    ensures |names| == |columns|
    ensures forall i :: 0 <= i < |columns| ==> names[i] == columns[i].name
  {
    seq(|columns|, i requires 0 <= i < |columns| => columns[i].name)
  }

  /**
   * Splitting the columns sends every column to exactly one list.
   * The two lists hold the column names, each name once per column that carries it.
   */
  lemma {:induction false} PartitionIsPermutation(columns: seq<Column>)
    ensures multiset(NamesWhere(columns, true)) + multiset(NamesWhere(columns, false)) == multiset(Names(columns))
  {
    if columns != [] {
      var init := columns[..|columns| - 1];
      PartitionIsPermutation(init);
      assert Names(columns) == Names(init) + [columns[|columns| - 1].name];
    }
  }

  /** The check at the end of the loop: the two lists' lengths sum to the number of columns. */
  lemma {:induction false} PartitionSizes(columns: seq<Column>)
    ensures |NamesWhere(columns, true)| + |NamesWhere(columns, false)| == |columns|
  {
    PartitionIsPermutation(columns);
    assert |multiset(Names(columns))| == |Names(columns)|;
  }

  /** Each list keeps the column order: splitting a concatenation concatenates the splits. */
  lemma {:induction false} NamesWhereAppend(a: seq<Column>, b: seq<Column>, binary: bool)
    ensures NamesWhere(a + b, binary) == NamesWhere(a, binary) + NamesWhere(b, binary)
    decreases |b|
  {
    if b == [] {
      assert a + b == a;
    } else {
      var init := b[..|b| - 1];
      assert (a + b)[..|a + b| - 1] == a + init;
      NamesWhereAppend(a, init, binary);
    }
  }

  /** A single column lands in the list its own binary test selects. */
  lemma SingleColumn(c: Column, binary: bool)
    ensures NamesWhere([c], binary) == if IsBinary(c.values) == binary then [c.name] else []
  {
    assert [c][..0] == [];
  }

  /** Every name in a list is the name of some column whose test gave that list's answer. */
  lemma {:induction false} NamesWhereSound(columns: seq<Column>, binary: bool, x: string)
    requires x in NamesWhere(columns, binary)
    ensures exists i :: 0 <= i < |columns| && columns[i].name == x && IsBinary(columns[i].values) == binary
  {
    var init := columns[..|columns| - 1];
    if x in NamesWhere(init, binary) {
      NamesWhereSound(init, binary, x);
      var i :| 0 <= i < |init| && init[i].name == x && IsBinary(init[i].values) == binary;
      assert columns[i] == init[i];
    } else {
      assert columns[|columns| - 1].name == x;
    }
  }

  /** Every column's name is in the list its test selects. */
  lemma {:induction false} NamesWhereComplete(columns: seq<Column>, i: nat)
    requires i < |columns|
    ensures columns[i].name in NamesWhere(columns, IsBinary(columns[i].values))
  {
    var init := columns[..|columns| - 1];
    if i < |columns| - 1 {
      NamesWhereComplete(init, i);
      assert init[i] == columns[i];
    }
  }

  /**
   * With distinct column headers (as a data frame has them), a column's name is in
   * `binary_variables` if and only if the column is binary, and in
   * `non_binary_variables` if and only if it is not.
   */
  lemma Placement(columns: seq<Column>, i: nat)
    requires i < |columns|
    requires forall j, k :: 0 <= j < k < |columns| ==> columns[j].name != columns[k].name
    ensures columns[i].name in NamesWhere(columns, true) <==> IsBinary(columns[i].values)
    ensures columns[i].name in NamesWhere(columns, false) <==> !IsBinary(columns[i].values)
  {
    NamesWhereComplete(columns, i);
    var other := !IsBinary(columns[i].values);
    if columns[i].name in NamesWhere(columns, other) {
      NamesWhereSound(columns, other, columns[i].name);
    }
  }

  /** The loop at the top of the variable overview, together with its closing assertion. */
  method PartitionColumns(columns: seq<Column>) returns (binary: seq<string>, nonBinary: seq<string>)
    ensures binary == NamesWhere(columns, true)
    ensures nonBinary == NamesWhere(columns, false)
    ensures |binary| + |nonBinary| == |columns|
  {
    binary, nonBinary := [], [];
    for i := 0 to |columns|
      invariant binary == NamesWhere(columns[..i], true)
      invariant nonBinary == NamesWhere(columns[..i], false)
      invariant |binary| + |nonBinary| == i
    {
      var col := columns[i];
      var unique := Unique(col.values);
      assert columns[..i + 1][..i] == columns[..i];
      if |unique| == 2 && 0.0 in unique && 1.0 in unique {
        binary := binary + [col.name];
      } else {
        nonBinary := nonBinary + [col.name];
      }
    }
    assert columns[..|columns|] == columns;
    assert |binary| + |nonBinary| == |columns|;
  }
}
