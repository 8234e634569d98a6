/**
 sort_appended_and_merge() of src/app_shell/incremental_sort.h and its caller in
 src/app_shell/pane_managed_list.cpp: rows that were appended to an ordered list are sorted alone and
 then merged in.
 */
module IncrementalSort {
  import opened RowOrder

  type Less = (Row, Row) -> bool

  /** Ascending: no row is less than one before it. */
  ghost predicate Sorted(less: Less, rows: seq<Row>) {
    forall i, j | 0 <= i < j < |rows| :: !less(rows[j], rows[i])
  }

  ghost predicate DistinctIdentities(rows: seq<Row>) {
    forall i, j | 0 <= i < j < |rows| :: rows[i].identity != rows[j].identity
  }

  /** What std::sort and std::inplace_merge promise: the same rows, in ascending order. */
  ghost predicate IsSortOf(less: Less, rows: seq<Row>, result: seq<Row>) {
    multiset(result) == multiset(rows) && Sorted(less, result)
  }

  // ----- There is only one sorted order of rows with distinct identities

  lemma SameRows(a: seq<Row>, b: seq<Row>, row: Row)
    requires multiset(a) == multiset(b)
    ensures row in a <==> row in b
  {
    assert row in a <==> row in multiset(a);
    assert row in b <==> row in multiset(b);
  }

  lemma DistinctKept(a: seq<Row>, b: seq<Row>)
    requires multiset(a) == multiset(b) && DistinctIdentities(a)
    ensures DistinctIdentities(b)
  {
    forall i, j | 0 <= i < j < |b| ensures b[i].identity != b[j].identity {
      if b[i].identity == b[j].identity {
        SameRows(a, b, b[i]);
        SameRows(a, b, b[j]);
        SameIdentitySameRow(a, b[i], b[j]);
        Twice(b, i, j);
        OnceOnly(a, b[i]);
      }
    }
  }

  lemma SameIdentitySameRow(rows: seq<Row>, r: Row, s: Row)
    requires DistinctIdentities(rows) && r in rows && s in rows && r.identity == s.identity
    ensures r == s
  {
  }

  lemma Twice(rows: seq<Row>, i: nat, j: nat)
    requires i < j < |rows| && rows[i] == rows[j]
    ensures multiset(rows)[rows[i]] >= 2
  {
    assert rows == rows[..j] + [rows[j]] + rows[j + 1..];
    assert rows[i] in rows[..j];
  }

  lemma OnceOnly(rows: seq<Row>, row: Row)
    requires DistinctIdentities(rows)
    ensures multiset(rows)[row] <= 1
  {
    if row in rows {
      var i :| 0 <= i < |rows| && rows[i] == row;
      assert rows == rows[..i] + [rows[i]] + rows[i + 1..];
      assert row !in rows[..i] && row !in rows[i + 1..];
    }
  }

  lemma {:induction false} SortIsUnique(less: Less, rows: seq<Row>, a: seq<Row>, b: seq<Row>)
    requires IsStrictWeak(less) && OrdersIdentities(less) && DistinctIdentities(rows)
    requires IsSortOf(less, rows, a) && IsSortOf(less, rows, b)
    ensures a == b
    decreases |rows|
  {
    SameLength(a, rows);
    SameLength(b, rows);
    if rows != [] {
      FirstsAgree(less, rows, a, b);
      RestSorted(less, rows, a);
      RestSorted(less, rows, b);
      DistinctKept(rows, a);
      hide IsStrictWeak, OrdersIdentities;
      SortIsUnique(less, a[1..], a[1..], b[1..]);
      assert a == [a[0]] + a[1..] && b == [b[0]] + b[1..];
    }
  }

  lemma RestSorted(less: Less, rows: seq<Row>, a: seq<Row>)
    requires IsSortOf(less, rows, a) && a != []
    ensures Sorted(less, a[1..]) && multiset(a[1..]) == multiset(rows) - multiset{a[0]}
  {
    assert a == [a[0]] + a[1..];
  }

  lemma FirstsAgree(less: Less, rows: seq<Row>, a: seq<Row>, b: seq<Row>)
    requires IsStrictWeak(less) && OrdersIdentities(less) && DistinctIdentities(rows) && a != [] && b != []
    requires IsSortOf(less, rows, a) && IsSortOf(less, rows, b)
    ensures a[0] == b[0]
  {
    SameRows(a, b, a[0]);
    SameRows(a, b, b[0]);
    SameRows(rows, a, a[0]);
    SameRows(rows, b, b[0]);
    var i :| 0 <= i < |b| && b[i] == a[0];
    var j :| 0 <= j < |a| && a[j] == b[0];
    assert i > 0 ==> !less(b[i], b[0]);
    assert j > 0 ==> !less(a[j], a[0]);
    if a[0].identity == b[0].identity {
      SameIdentitySameRow(rows, a[0], b[0]);
    }
  }

  // ----- The two library routines, of which only what IsSortOf says is used

  lemma NotLessTransitive(less: Less, a: Row, b: Row, c: Row)
    requires IsStrictWeak(less) && !less(b, a) && !less(c, b)
    ensures !less(c, a)
  {
  }

  /** Where a row goes into a sorted list. */
  method Insert(less: Less, rows: seq<Row>, row: Row) returns (result: seq<Row>)
    requires IsStrictWeak(less) && Sorted(less, rows)
    ensures IsSortOf(less, rows + [row], result)
  {
    var i := |rows|;
    while i > 0 && less(row, rows[i - 1])
      invariant 0 <= i <= |rows| && forall k | i <= k < |rows| :: !less(rows[k], row)
    {
      i := i - 1;
    }
    InsertedSorted(less, rows, i, row);
    result := rows[..i] + [row] + rows[i..];
  }

  lemma InsertedSorted(less: Less, rows: seq<Row>, i: nat, row: Row)
    requires IsStrictWeak(less) && Sorted(less, rows) && i <= |rows|
    requires forall k | i <= k < |rows| :: !less(rows[k], row)
    requires i > 0 ==> !less(row, rows[i - 1])
    ensures IsSortOf(less, rows + [row], rows[..i] + [row] + rows[i..])
  {
    forall k | 0 <= k < i ensures !less(row, rows[k]) {
      if k < i - 1 {
        NotLessTransitive(less, rows[k], rows[i - 1], row);
      }
    }
    InsertedAscending(less, rows, i, row);
    InsertedRows(rows, i, row);
    hide Sorted, IsStrictWeak;
  }

  lemma InsertedRows(rows: seq<Row>, i: nat, row: Row)
    requires i <= |rows|
    ensures multiset(rows[..i] + [row] + rows[i..]) == multiset(rows + [row])
  {
    assert rows == rows[..i] + rows[i..];
  }

  lemma InsertedAscending(less: Less, rows: seq<Row>, i: nat, row: Row)
    requires Sorted(less, rows) && i <= |rows|
    requires forall k | 0 <= k < i :: !less(row, rows[k])
    requires forall k | i <= k < |rows| :: !less(rows[k], row)
    ensures Sorted(less, rows[..i] + [row] + rows[i..])
  {
    var result := rows[..i] + [row] + rows[i..];
    forall j, k | 0 <= j < k < |result| ensures !less(result[k], result[j]) {
      assert result[j] == if j < i then rows[j] else if j == i then row else rows[j - 1];
      assert result[k] == if k < i then rows[k] else if k == i then row else rows[k - 1];
    }
  }

  method StdSort(less: Less, rows: seq<Row>) returns (result: seq<Row>)
    requires IsStrictWeak(less)
    ensures IsSortOf(less, rows, result)
  {
    result := [];
    for i := 0 to |rows|
      invariant IsSortOf(less, rows[..i], result)
    {
      assert rows[..i + 1] == rows[..i] + [rows[i]];
      result := Insert(less, result, rows[i]);
    }
    assert rows[..|rows|] == rows;
  }

  method StdMerge(less: Less, left: seq<Row>, right: seq<Row>) returns (result: seq<Row>)
    requires IsStrictWeak(less) && Sorted(less, left) && Sorted(less, right)
    ensures IsSortOf(less, left + right, result)
  {
    result := left;
    assert left + right[..0] == left;
    for i := 0 to |right|
      invariant IsSortOf(less, left + right[..i], result)
    {
      assert left + right[..i + 1] == left + right[..i] + [right[i]];
      result := Insert(less, result, right[i]);
    }
    assert left + right[..|right|] == left + right;
  }

  // ----- sort_appended_and_merge and sort_managed_list_rows

  /** Put a list in place of part of the rows. */
  method Overwrite(rows: array<Row>, first: nat, part: seq<Row>)
    requires first + |part| <= rows.Length
    modifies rows
    ensures rows[..] == old(rows[..first]) + part + old(rows[first + |part|..])
  {
    ghost var before := rows[..];
    for i := 0 to |part|
      invariant forall k | 0 <= k < rows.Length ::
        rows[k] == if first <= k < first + i then part[k - first] else before[k]
    {
      rows[first + i] := part[i];
    }
  }

  lemma PartsSorted(less: Less, before: seq<Row>, middle: nat, appended: seq<Row>, result: seq<Row>)
    requires middle <= |before| && IsSortOf(less, before[middle..], appended)
    requires IsSortOf(less, before[..middle] + appended, result)
    ensures IsSortOf(less, before, result)
  {
    assert before == before[..middle] + before[middle..];
  }

  /** The rows before `middle` are in order already; afterwards all are. */
  method SortAppendedAndMerge(less: Less, rows: array<Row>, middle: nat)
    requires IsStrictWeak(less) && middle <= rows.Length && Sorted(less, rows[..middle])
    modifies rows
    ensures IsSortOf(less, old(rows[..]), rows[..])
  {
    ghost var before := rows[..];
    if middle == 0 {
      var all := StdSort(less, rows[..]);
      SameLength(before, all);
      Overwrite(rows, 0, all);
      assert rows[..] == all;
      return;
    }
    if middle == rows.Length {
      assert rows[..middle] == rows[..];
      return;
    }
    var appended := StdSort(less, rows[middle..]);
    SameLength(before[middle..], appended);
    Overwrite(rows, middle, appended);
    assert rows[..middle] == before[..middle] && rows[middle..] == appended;
    var merged := StdMerge(less, rows[..middle], rows[middle..]);
    PartsSorted(less, before, middle, appended, merged);
    SameLength(before, merged);
    Overwrite(rows, 0, merged);
    assert rows[..] == merged;
  }

  lemma SameLength(a: seq<Row>, b: seq<Row>)
    requires multiset(a) == multiset(b)
    ensures |a| == |b|
  {
    assert |multiset(a)| == |multiset(b)|;
  }

  /** sort_managed_list_rows(): a prefix that is longer than the list counts as none. */
  method SortRows(sys: System, property: SortProperty, ascending: bool, rows: array<Row>, sortedPrefix: nat)
    requires sys.Sound()
    requires sortedPrefix <= rows.Length ==>
      Sorted((a, b) => RowLess(sys, property, ascending, a, b), rows[..sortedPrefix])
    modifies rows
    ensures IsSortOf((a, b) => RowLess(sys, property, ascending, a, b), old(rows[..]), rows[..])
  {
    RowLessStrictWeak(sys, property, ascending);
    var less := (a, b) => RowLess(sys, property, ascending, a, b);
    var prefix := if sortedPrefix > rows.Length then 0 else sortedPrefix;
    assert prefix == 0 ==> rows[..prefix] == [];
    SortAppendedAndMerge(less, rows, prefix);
  }

  /** Sorting only the appended rows and merging gives exactly the list that sorting everything gives:
      there is one order only, whatever the property and the direction. */
  lemma IncrementalIsFull(sys: System, property: SortProperty, ascending: bool, rows: seq<Row>, incremental: seq<Row>,
                          full: seq<Row>)
    requires sys.Sound() && DistinctIdentities(rows)
    requires var less := (a, b) => RowLess(sys, property, ascending, a, b);
      IsSortOf(less, rows, incremental) && IsSortOf(less, rows, full)
    ensures incremental == full
  {
    RowLessStrictWeak(sys, property, ascending);
    SortIsUnique((a, b) => RowLess(sys, property, ascending, a, b), rows, incremental, full);
  }
}
