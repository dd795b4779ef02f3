/**
 * The data table's view engine: a fixed collection of rows is filtered by a
 * search key, counted into pages, sorted by one column and cut down to the
 * current page. The pipeline is written as pure functions; the component that
 * holds the view state and reruns the pipeline after every event is the class
 * `DataTable` at the end of this module.
 */
module DataTable {
  import opened Optional
  import opened Text

  /** One row object: its properties in order, each a field name and its string value. */
  type Row = seq<(string, string)>

  /** A page size: any positive integer. The selector offers 5, 10, 25 and 50. */
  type PageSize = n: int | 0 < n witness 5

  // ---------------------------------------------------------------------------
  // Filter
  // ---------------------------------------------------------------------------

  /** Some value of the row, lower-cased, includes the (already lower-cased) key. */
  predicate RowMatches(row: Row, keyLower: string)
  {
    exists j :: 0 <= j < |row| && Contains(ToLower(row[j].1), keyLower)
  }

  /** Whether the search keeps a row: an empty key keeps every row. */
  predicate Keeps(row: Row, searchKey: string)
  {
    searchKey == "" || RowMatches(row, ToLower(searchKey))
  }

  /** `rows.filter(...)` with the row test above. */
  function FilterRows(rows: seq<Row>, keyLower: string): (r: seq<Row>)
    ensures |r| <= |rows|
  {
    if rows == [] then []
    else (if RowMatches(rows[0], keyLower) then [rows[0]] else []) + FilterRows(rows[1..], keyLower)
  }

  /** The search step of the pipeline: no filtering at all when the key is empty. */
  function Filter(rows: seq<Row>, searchKey: string): seq<Row>
  {
    if searchKey == "" then rows else FilterRows(rows, ToLower(searchKey))
  }

  /** The filter keeps every copy of a row the search keeps and no copy of any other row. */
  lemma {:induction false} FilterCounts(rows: seq<Row>, searchKey: string, x: Row)
    ensures multiset(Filter(rows, searchKey))[x] == if Keeps(x, searchKey) then multiset(rows)[x] else 0
    ensures x in Filter(rows, searchKey) <==> x in rows && Keeps(x, searchKey)
    decreases |rows|
  {
    if searchKey != "" && rows != [] {
      FilterCounts(rows[1..], searchKey, x);
      assert rows == [rows[0]] + rows[1..];
    }
  }

  /** Filtering a concatenation filters each part: the kept rows keep their relative order. */
  lemma FilterAppend(a: seq<Row>, b: seq<Row>, searchKey: string)
    ensures Filter(a + b, searchKey) == Filter(a, searchKey) + Filter(b, searchKey)
  {
    if searchKey != "" {
      FilterRowsAppend(a, b, ToLower(searchKey));
    }
  }

  lemma {:induction false} FilterRowsAppend(a: seq<Row>, b: seq<Row>, keyLower: string)
    ensures FilterRows(a + b, keyLower) == FilterRows(a, keyLower) + FilterRows(b, keyLower)
    decreases |a|
  {
    if a == [] {
      assert a + b == b;
    } else {
      var head := if RowMatches(a[0], keyLower) then [a[0]] else [];
      assert (a + b)[0] == a[0] && (a + b)[1..] == a[1..] + b;
      assert FilterRows(a + b, keyLower) == head + FilterRows(a[1..] + b, keyLower);
      FilterRowsAppend(a[1..], b, keyLower);
      assert FilterRows(a, keyLower) == head + FilterRows(a[1..], keyLower);
    }
  }

  /** The search is case-insensitive: keys that lower-case alike filter alike. */
  lemma {:induction false} FilterCaseInsensitive(rows: seq<Row>, key1: string, key2: string)
    requires ToLower(key1) == ToLower(key2)
    ensures Filter(rows, key1) == Filter(rows, key2)
  {
  }

  /** Lower-casing the key before searching changes nothing: the search lower-cases it anyway. */
  lemma FilterLowerKey(rows: seq<Row>, searchKey: string)
    ensures Filter(rows, ToLower(searchKey)) == Filter(rows, searchKey)
  {
    ToLowerIdempotent(searchKey);
    FilterCaseInsensitive(rows, ToLower(searchKey), searchKey);
  }

  // ---------------------------------------------------------------------------
  // Page count and page slice
  // ---------------------------------------------------------------------------

  /** `Math.ceil(total / pageSize)` on whole numbers. */
  function PageCount(total: nat, pageSize: PageSize): nat
  {
    (total + pageSize - 1) / pageSize
  }

  /** The page count is the fewest pages of `pageSize` rows that hold `total` rows; 0 only for no rows. */
  lemma PageCountIsCeiling(total: nat, pageSize: PageSize)
    ensures total <= PageCount(total, pageSize) * pageSize
    ensures PageCount(total, pageSize) == 0 || (PageCount(total, pageSize) - 1) * pageSize < total
    ensures PageCount(total, pageSize) == 0 <==> total == 0
  {
  }

  lemma MulMonotone(a: nat, b: nat, pageSize: PageSize)
    requires a <= b
    ensures a * pageSize <= b * pageSize
  {
  }

  lemma MulSucc(a: nat, pageSize: PageSize)
    ensures (a + 1) * pageSize == a * pageSize + pageSize
  {
  }

  /** The page number after the clamp: back to 1 when past the last page. */
  function ClampPage(currentPage: nat, totalPages: nat): nat
  {
    if currentPage > totalPages then 1 else currentPage
  }

  /** How `Array.prototype.slice` resolves an index: negative counts from the end, then clipped. */
  function SliceIndex(i: int, len: nat): (r: nat)
    ensures r <= len
    ensures 0 <= i <= len ==> r == i
    ensures len < i ==> r == len
    ensures i < 0 ==> r == if len + i < 0 then 0 else len + i
  {
    if i < 0 then (if len + i < 0 then 0 else len + i)
    else if i > len then len
    else i
  }

  /** `s.slice(start, end)`. */
  function Slice<T>(s: seq<T>, start: int, end: int): seq<T>
  {
    var from, to := SliceIndex(start, |s|), SliceIndex(end, |s|);
    if from < to then s[from..to] else []
  }

  /**
   * `slice(start, end)` with both indices in range is the subsequence between them;
   * an inverted range of non-negative indices, or one that starts past the end, is
   * empty; an end past the last row is clipped to it; and a negative start counts
   * from the end.
   */
  lemma SliceInRange<T>(s: seq<T>, start: int, end: int)
    ensures 0 <= start <= end <= |s| ==> Slice(s, start, end) == s[start..end]
    ensures 0 <= end <= start ==> Slice(s, start, end) == []
    ensures |s| <= start ==> Slice(s, start, end) == []
    ensures 0 <= start <= |s| <= end ==> Slice(s, start, end) == s[start..]
    ensures -|s| <= start < 0 ==> Slice(s, start, end) == Slice(s, |s| + start, end)
  {
  }

  /** The rows of page `currentPage`: `slice((currentPage - 1) * pageSize, currentPage * pageSize)`. */
  function Page(rows: seq<Row>, currentPage: nat, pageSize: PageSize): seq<Row>
  {
    var startIndex := (currentPage - 1) * pageSize;
    Slice(rows, startIndex, startIndex + pageSize)
  }

  function Min(a: int, b: int): int
  {
    if a <= b then a else b
  }

  /**
   * A page from 1 on is the block of rows starting at `(currentPage - 1) * pageSize`,
   * clipped to the rows there are, so it never holds more than `pageSize` rows;
   * page 0 is always empty.
   */
  lemma PageContents(rows: seq<Row>, currentPage: nat, pageSize: PageSize)
    ensures |Page(rows, currentPage, pageSize)| <= pageSize
    ensures currentPage == 0 ==> Page(rows, currentPage, pageSize) == []
    ensures currentPage >= 1 ==>
      var startIndex := (currentPage - 1) * pageSize;
      Page(rows, currentPage, pageSize)
        == if startIndex < |rows| then rows[startIndex..Min(startIndex + pageSize, |rows|)] else []
  {
    var startIndex := (currentPage - 1) * pageSize;
    if currentPage == 0 {
      assert startIndex + pageSize == 0;
    } else {
      MulMonotone(0, currentPage - 1, pageSize);
      assert 0 <= startIndex;
    }
  }

  /** Pages 1 to `n`, one after the other. */
  function PagesUpTo(rows: seq<Row>, n: nat, pageSize: PageSize): seq<Row>
  {
    if n == 0 then [] else PagesUpTo(rows, n - 1, pageSize) + Page(rows, n, pageSize)
  }

  /** The first `n` pages are the first `n * pageSize` rows (or all of them), in order. */
  lemma {:induction false} PagesUpToPrefix(rows: seq<Row>, n: nat, pageSize: PageSize)
    ensures PagesUpTo(rows, n, pageSize) == rows[..Min(n * pageSize, |rows|)]
  {
    if n > 0 {
      PagesUpToPrefix(rows, n - 1, pageSize);
      MulSucc(n - 1, pageSize);
      MulMonotone(0, n - 1, pageSize);
      PageContents(rows, n, pageSize);
      PrefixThenPage(rows, PagesUpTo(rows, n - 1, pageSize), Page(rows, n, pageSize), (n - 1) * pageSize, pageSize);
    }
  }

  /** The rows before `startIndex` followed by the page from there are the rows up to the page's end. */
  lemma PrefixThenPage(rows: seq<Row>, before: seq<Row>, page: seq<Row>, startIndex: int, pageSize: PageSize)
    requires 0 <= startIndex && before == rows[..Min(startIndex, |rows|)]
    requires page == if startIndex < |rows| then rows[startIndex..Min(startIndex + pageSize, |rows|)] else []
    ensures before + page == rows[..Min(startIndex + pageSize, |rows|)]
  {
    if startIndex < |rows| {
      assert rows[..startIndex] + rows[startIndex..Min(startIndex + pageSize, |rows|)]
          == rows[..Min(startIndex + pageSize, |rows|)];
    }
  }

  /** Every row is on exactly one page: the pages laid end to end are the rows, in order. */
  lemma PagesCoverRows(rows: seq<Row>, pageSize: PageSize)
    ensures PagesUpTo(rows, PageCount(|rows|, pageSize), pageSize) == rows
  {
    PagesUpToPrefix(rows, PageCount(|rows|, pageSize), pageSize);
    PageCountIsCeiling(|rows|, pageSize);
  }

  // ---------------------------------------------------------------------------
  // Sort
  // ---------------------------------------------------------------------------

  /** `row[fieldName]`: the value of the first property with that name, if any. */
  function Lookup(row: Row, fieldName: string): (r: Option<string>)
    ensures r.Some? <==> exists j :: 0 <= j < |row| && row[j].0 == fieldName
    ensures r.Some? ==> exists j :: 0 <= j < |row| && row[j] == (fieldName, r.value)
  {
    if row == [] then None
    else if row[0].0 == fieldName then Some(row[0].1)
    else Lookup(row[1..], fieldName)
  }

  /** The value the comparator sorts on: a missing or empty (falsy) value becomes ''. */
  function SortKey(row: Row, fieldName: string): string
  {
    match Lookup(row, fieldName)
    case Some(v) => v
    case None => ""
  }

  /** `(x > y) - (y > x)` on two strings: 1, 0 or -1. */
  function CompareKeys(a: string, b: string): int
  {
    (if StrLess(b, a) then 1 else 0) - (if StrLess(a, b) then 1 else 0)
  }

  /** The comparator: `isReverse * ((x > y) - (y > x))` on the two sort keys. */
  function Compare(x: Row, y: Row, fieldName: string, direction: string): int
  {
    var c := CompareKeys(SortKey(x, fieldName), SortKey(y, fieldName));
    if direction == "asc" then c else -c
  }

  /** `x` may come before `y`: the comparator does not ask for them to be swapped. */
  predicate InOrder(x: Row, y: Row, fieldName: string, direction: string)
  {
    Compare(x, y, fieldName, direction) <= 0
  }

  /** Every earlier row may come before every later row. */
  ghost predicate SortedBy(rows: seq<Row>, fieldName: string, direction: string)
  {
    forall i, j :: 0 <= i < j < |rows| ==> InOrder(rows[i], rows[j], fieldName, direction)
  }

  /** The string order the keys follow: `a <= b`. */
  predicate StrLessEq(a: string, b: string)
  {
    !StrLess(b, a)
  }

  lemma StrLessAsymmetric(a: string, b: string)
    requires StrLess(a, b)
    ensures !StrLess(b, a)
  {
    if StrLess(b, a) {
      StrLessTransitive(a, b, a);
      StrLessIrreflexive(a);
    }
  }

  /** `InOrder` is the string order on the sort keys, reversed for any direction but 'asc'. */
  lemma InOrderIsKeyOrder(x: Row, y: Row, fieldName: string, direction: string)
    ensures direction == "asc" ==>
      (InOrder(x, y, fieldName, direction) <==> StrLessEq(SortKey(x, fieldName), SortKey(y, fieldName)))
    ensures direction != "asc" ==>
      (InOrder(x, y, fieldName, direction) <==> StrLessEq(SortKey(y, fieldName), SortKey(x, fieldName)))
  {
    var a, b := SortKey(x, fieldName), SortKey(y, fieldName);
    if StrLess(a, b) {
      StrLessAsymmetric(a, b);
    }
  }

  /** Of two rows, at least one may come before the other. */
  lemma InOrderTotal(x: Row, y: Row, fieldName: string, direction: string)
    ensures InOrder(x, y, fieldName, direction) || InOrder(y, x, fieldName, direction)
  {
  }

  lemma StrLessEqTransitive(a: string, b: string, c: string)
    requires StrLessEq(a, b) && StrLessEq(b, c)
    ensures StrLessEq(a, c)
  {
    if StrLess(c, a) {
      if a != b {
        StrLessTotal(a, b);
        StrLessTransitive(c, a, b);
      }
    }
  }

  lemma InOrderTransitive(x: Row, y: Row, z: Row, fieldName: string, direction: string)
    requires InOrder(x, y, fieldName, direction) && InOrder(y, z, fieldName, direction)
    ensures InOrder(x, z, fieldName, direction)
  {
    InOrderIsKeyOrder(x, y, fieldName, direction);
    InOrderIsKeyOrder(y, z, fieldName, direction);
    InOrderIsKeyOrder(x, z, fieldName, direction);
    var a, b, c := SortKey(x, fieldName), SortKey(y, fieldName), SortKey(z, fieldName);
    if direction == "asc" {
      StrLessEqTransitive(a, b, c);
    } else {
      StrLessEqTransitive(c, b, a);
    }
  }

  /** Rows in order pair by pair are in order at any distance. */
  lemma {:induction false} AdjacentChain(rows: seq<Row>, fieldName: string, direction: string, i: nat, j: nat)
    requires forall k :: 0 < k < |rows| ==> InOrder(rows[k - 1], rows[k], fieldName, direction)
    requires i < j < |rows|
    ensures InOrder(rows[i], rows[j], fieldName, direction)
    decreases j - i
  {
    if i + 1 < j {
      AdjacentChain(rows, fieldName, direction, i, j - 1);
      InOrderTransitive(rows[i], rows[j - 1], rows[j], fieldName, direction);
    }
  }

  lemma AdjacentToSorted(rows: seq<Row>, fieldName: string, direction: string)
    requires forall k :: 0 < k < |rows| ==> InOrder(rows[k - 1], rows[k], fieldName, direction)
    ensures SortedBy(rows, fieldName, direction)
  {
    forall i, j | 0 <= i < j < |rows|
      ensures InOrder(rows[i], rows[j], fieldName, direction)
    {
      AdjacentChain(rows, fieldName, direction, i, j);
    }
  }

  /**
   * Sorted by the comparator means: sort keys non-decreasing in the string order
   * for 'asc', non-increasing for any other direction.
   */
  lemma SortedByKeys(rows: seq<Row>, fieldName: string, direction: string)
    requires SortedBy(rows, fieldName, direction)
    ensures direction == "asc" ==>
      forall i, j :: 0 <= i < j < |rows| ==> StrLessEq(SortKey(rows[i], fieldName), SortKey(rows[j], fieldName))
    ensures direction != "asc" ==>
      forall i, j :: 0 <= i < j < |rows| ==> StrLessEq(SortKey(rows[j], fieldName), SortKey(rows[i], fieldName))
  {
    forall i, j | 0 <= i < j < |rows|
      ensures direction == "asc" ==> StrLessEq(SortKey(rows[i], fieldName), SortKey(rows[j], fieldName))
      ensures direction != "asc" ==> StrLessEq(SortKey(rows[j], fieldName), SortKey(rows[i], fieldName))
    {
      InOrderIsKeyOrder(rows[i], rows[j], fieldName, direction);
    }
  }

  /** Neighbouring rows are in order, pair by pair. */
  ghost predicate NeighboursInOrder(rows: seq<Row>, fieldName: string, direction: string)
  {
    forall k :: 0 < k < |rows| ==> InOrder(rows[k - 1], rows[k], fieldName, direction)
  }

  /**
   * One pass of the sort on values: `x` enters at the end of `s` and moves down past
   * every row that must come after it, stopping behind the first one that may come
   * before it, so rows with equal keys keep their order.
   */
  function Insert(s: seq<Row>, x: Row, fieldName: string, direction: string): (r: seq<Row>)
    ensures |r| == |s| + 1
    decreases |s|
  {
    if s == [] || InOrder(s[|s| - 1], x, fieldName, direction) then s + [x]
    else Insert(s[..|s| - 1], x, fieldName, direction) + [s[|s| - 1]]
  }

  /** The order `sortData` returns: each row in turn inserted among the sorted rows before it. */
  function InsertionSort(rows: seq<Row>, fieldName: string, direction: string): (r: seq<Row>)
    ensures |r| == |rows|
    decreases |rows|
  {
    if rows == [] then []
    else Insert(InsertionSort(rows[..|rows| - 1], fieldName, direction), rows[|rows| - 1], fieldName, direction)
  }

  /** Inserting adds exactly the one row. */
  lemma {:induction false} InsertCount(s: seq<Row>, x: Row, fieldName: string, direction: string)
    ensures multiset(Insert(s, x, fieldName, direction)) == multiset(s) + multiset{x}
    decreases |s|
  {
    if s != [] && !InOrder(s[|s| - 1], x, fieldName, direction) {
      InsertCount(s[..|s| - 1], x, fieldName, direction);
      assert s == s[..|s| - 1] + [s[|s| - 1]];
    }
  }

  /** Appending a row that may follow the last one keeps the rows in order. */
  lemma AppendInOrder(s: seq<Row>, x: Row, fieldName: string, direction: string)
    requires NeighboursInOrder(s, fieldName, direction)
    requires s != [] ==> InOrder(s[|s| - 1], x, fieldName, direction)
    ensures NeighboursInOrder(s + [x], fieldName, direction)
  {
    var r := s + [x];
    forall k | 0 < k < |r|
      ensures InOrder(r[k - 1], r[k], fieldName, direction)
    {
      if k < |s| {
        assert r[k - 1] == s[k - 1] && r[k] == s[k];
      }
    }
  }

  /** Dropping the last row keeps the rows in order. */
  lemma InitInOrder(s: seq<Row>, fieldName: string, direction: string)
    requires s != [] && NeighboursInOrder(s, fieldName, direction)
    ensures NeighboursInOrder(s[..|s| - 1], fieldName, direction)
  {
    var init := s[..|s| - 1];
    forall k | 0 < k < |init|
      ensures InOrder(init[k - 1], init[k], fieldName, direction)
    {
      assert init[k - 1] == s[k - 1] && init[k] == s[k];
    }
  }

  /** Inserting into rows in order leaves rows in order, ending in `x` or in the old last row. */
  lemma {:induction false} InsertKeepsOrder(s: seq<Row>, x: Row, fieldName: string, direction: string)
    requires NeighboursInOrder(s, fieldName, direction)
    ensures NeighboursInOrder(Insert(s, x, fieldName, direction), fieldName, direction)
    ensures var r := Insert(s, x, fieldName, direction);
      r[|r| - 1] == x || (s != [] && r[|r| - 1] == s[|s| - 1])
    decreases |s|
  {
    if s == [] || InOrder(s[|s| - 1], x, fieldName, direction) {
      AppendInOrder(s, x, fieldName, direction);
    } else {
      var init, last := s[..|s| - 1], s[|s| - 1];
      InitInOrder(s, fieldName, direction);
      InsertKeepsOrder(init, x, fieldName, direction);
      InOrderTotal(last, x, fieldName, direction);
      var r' := Insert(init, x, fieldName, direction);
      if r'[|r'| - 1] != x {
        assert r'[|r'| - 1] == s[|s| - 2];
      }
      AppendInOrder(r', last, fieldName, direction);
    }
  }

  /** The sort returns a permutation of its input, in order pair by pair. */
  lemma {:induction false} InsertionSortSorts(rows: seq<Row>, fieldName: string, direction: string)
    ensures multiset(InsertionSort(rows, fieldName, direction)) == multiset(rows)
    ensures NeighboursInOrder(InsertionSort(rows, fieldName, direction), fieldName, direction)
    decreases |rows|
  {
    if rows != [] {
      var init, last := rows[..|rows| - 1], rows[|rows| - 1];
      InsertionSortSorts(init, fieldName, direction);
      InsertCount(InsertionSort(init, fieldName, direction), last, fieldName, direction);
      InsertKeepsOrder(InsertionSort(init, fieldName, direction), last, fieldName, direction);
      assert rows == init + [last];
    }
  }

  /** Exchanges two neighbouring rows of the array. */
  method SwapAdjacent(a: array<Row>, j: nat)
    requires 0 < j < a.Length
    modifies a
    ensures a[..] == old(a[..])[j - 1 := old(a[j])][j := old(a[j - 1])]
  {
    a[j - 1], a[j] := a[j], a[j - 1];
  }

  /** Exchanging the moving row `x` with the row before it moves it one place down. */
  lemma SwapMovesDown(s: seq<Row>, x: Row, suffix: seq<Row>, j: nat)
    requires 0 < j <= |s|
    ensures var t := s[..j] + [x] + s[j..] + suffix;
      t[j - 1 := t[j]][j := t[j - 1]] == s[..j - 1] + [x] + s[j - 1..] + suffix
  {
    var t := s[..j] + [x] + s[j..] + suffix;
    var u := s[..j - 1] + [x] + s[j - 1..] + suffix;
    var v := t[j - 1 := t[j]][j := t[j - 1]];
    assert t[j - 1] == s[j - 1] && t[j] == x;
    forall k | 0 <= k < |u|
      ensures v[k] == u[k]
    {
      if k < j - 1 {
        assert v[k] == s[k] == u[k];
      } else if j + 1 <= k < |s| + 1 {
        assert v[k] == s[k - 1] == u[k];
      } else if |s| + 1 <= k {
        assert v[k] == suffix[k - |s| - 1] == u[k];
      }
    }
  }

  /** A row that must come after `x` stays after it: `x` is inserted among the rows before it. */
  lemma InsertPast(s: seq<Row>, x: Row, j: nat, fieldName: string, direction: string)
    requires 0 < j <= |s| && !InOrder(s[j - 1], x, fieldName, direction)
    ensures Insert(s[..j], x, fieldName, direction) + s[j..]
         == Insert(s[..j - 1], x, fieldName, direction) + s[j - 1..]
  {
    assert s[..j][..j - 1] == s[..j - 1];
    assert s[j - 1..] == [s[j - 1]] + s[j..];
  }

  /**
   * One pass of the in-place sort: the row at index `i` moves down past every row
   * that must come after it. The rows before it end as `Insert` orders them, and
   * the rows after it are left alone.
   */
  method InsertDown(a: array<Row>, i: nat, fieldName: string, direction: string)
    requires i < a.Length
    modifies a
    ensures a[..] == Insert(old(a[..i]), old(a[i]), fieldName, direction) + old(a[i + 1..])
  {
    ghost var s, x, suffix := a[..i], a[i], a[i + 1..];
    assert s[..i] == s && s[i..] == [];
    assert a[..] == s[..i] + [x] + s[i..] + suffix;
    var j := i;
    while j > 0 && !InOrder(a[j - 1], a[j], fieldName, direction)
      invariant 0 <= j <= i
      invariant a[..] == s[..j] + [x] + s[j..] + suffix
      invariant Insert(s, x, fieldName, direction) == Insert(s[..j], x, fieldName, direction) + s[j..]
    {
      assert a[j - 1] == s[j - 1] && a[j] == x;
      InsertPast(s, x, j, fieldName, direction);
      SwapMovesDown(s, x, suffix, j);
      SwapAdjacent(a, j);
      j := j - 1;
    }
    assert j > 0 ==> a[j - 1] == s[j - 1] && a[j] == x;
    InsertStops(s, x, suffix, j, fieldName, direction);
  }

  /** Once `x` is in order after the row before it, the pass is done. */
  lemma InsertStops(s: seq<Row>, x: Row, suffix: seq<Row>, j: nat, fieldName: string, direction: string)
    requires j <= |s| && (j == 0 || InOrder(s[j - 1], x, fieldName, direction))
    requires Insert(s, x, fieldName, direction) == Insert(s[..j], x, fieldName, direction) + s[j..]
    ensures s[..j] + [x] + s[j..] + suffix == Insert(s, x, fieldName, direction) + suffix
  {
    assert Insert(s[..j], x, fieldName, direction) == s[..j] + [x];
  }

  /**
   * `sortData`: sorts a fresh copy of `rows` (the JSON deep copy) in place and
   * returns it; `rows` itself is a value and stays as it was. The result is a
   * function of the input, a sorted permutation of it.
   */
  method SortData(rows: seq<Row>, fieldName: string, direction: string) returns (sorted: seq<Row>)
    ensures sorted == InsertionSort(rows, fieldName, direction)
    ensures multiset(sorted) == multiset(rows)
    ensures SortedBy(sorted, fieldName, direction)
  {
    var a := new Row[|rows|](i requires 0 <= i < |rows| => rows[i]);
    assert a[..] == rows;
    var i := 0;
    while i < a.Length
      invariant 0 <= i <= a.Length
      invariant a[..] == InsertionSort(rows[..i], fieldName, direction) + rows[i..]
    {
      SortStep(a[..], rows, i, fieldName, direction);
      InsertDown(a, i, fieldName, direction);
      i := i + 1;
    }
    sorted := a[..];
    assert rows[..|rows|] == rows;
    InsertionSortIsSorted(rows, fieldName, direction);
  }

  /** The state of the sort before pass `i`, and what that pass leaves. */
  lemma SortStep(state: seq<Row>, rows: seq<Row>, i: nat, fieldName: string, direction: string)
    requires i < |rows| && state == InsertionSort(rows[..i], fieldName, direction) + rows[i..]
    ensures state[..i] == InsertionSort(rows[..i], fieldName, direction)
    ensures state[i] == rows[i] && state[i + 1..] == rows[i + 1..]
    ensures InsertionSort(rows[..i + 1], fieldName, direction)
         == Insert(state[..i], state[i], fieldName, direction)
  {
    assert rows[..i + 1][..i] == rows[..i];
  }

  /** The sort's result is a permutation of its input, sorted by the comparator. */
  lemma InsertionSortIsSorted(rows: seq<Row>, fieldName: string, direction: string)
    ensures multiset(InsertionSort(rows, fieldName, direction)) == multiset(rows)
    ensures SortedBy(InsertionSort(rows, fieldName, direction), fieldName, direction)
  {
    InsertionSortSorts(rows, fieldName, direction);
    AdjacentToSorted(InsertionSort(rows, fieldName, direction), fieldName, direction);
  }

  // ---------------------------------------------------------------------------
  // Display metadata
  // ---------------------------------------------------------------------------

  /** The numbers `paginationInfo` shows: first and last record of the page, and the total. */
  datatype PageInfo = PageInfo(startRecord: int, endRecord: int, totalRecords: nat)

  function Info(currentPage: nat, pageSize: PageSize, totalRecords: nat): PageInfo
  {
    PageInfo((currentPage - 1) * pageSize + 1, Min(currentPage * pageSize, totalRecords), totalRecords)
  }

  /** The text `${start} - ${end} 件 / 全 ${total} 件`. */
  function InfoText(info: PageInfo): string
  {
    IntToString(info.startRecord) + " - " + IntToString(info.endRecord)
      + " 件 / 全 " + NatToString(info.totalRecords) + " 件"
  }

  /**
   * On a page in range the reported records are exactly the rows shown:
   * `rows[startRecord - 1 .. endRecord]`, one-based and inclusive.
   */
  lemma InfoMatchesPage(rows: seq<Row>, currentPage: nat, pageSize: PageSize)
    requires 1 <= currentPage <= PageCount(|rows|, pageSize)
    ensures var info := Info(currentPage, pageSize, |rows|);
      && 1 <= info.startRecord <= info.endRecord <= |rows|
      && Page(rows, currentPage, pageSize) == rows[info.startRecord - 1..info.endRecord]
  {
    var pages := PageCount(|rows|, pageSize);
    var startIndex, endIndex := (currentPage - 1) * pageSize, currentPage * pageSize;
    PageCountIsCeiling(|rows|, pageSize);
    MulMonotone(0, currentPage - 1, pageSize);
    MulMonotone(currentPage - 1, pages - 1, pageSize);
    assert 0 <= startIndex < |rows|;
    MulSucc(currentPage - 1, pageSize);
    assert endIndex == startIndex + pageSize;
    PageContents(rows, currentPage, pageSize);
  }

  /**
   * With nothing to show the page is empty, and the text reads "1 - 0" on page 1
   * but starts at `1 - pageSize` on page 0 (where `handleLast` leaves it).
   */
  lemma InfoWhenEmpty(currentPage: nat, pageSize: PageSize)
    requires currentPage <= 1
    ensures Page([], currentPage, pageSize) == []
    ensures Info(currentPage, pageSize, 0).endRecord == 0
    ensures Info(currentPage, pageSize, 0).startRecord == if currentPage == 1 then 1 else 1 - pageSize
  {
  }

  /** `selectedRowsText`: `${n} 件選択中` when rows are selected, '' otherwise. */
  function SelectedText(count: nat): (r: string)
    ensures r == "" <==> count == 0
  {
    if count > 0 then NatToString(count) + " 件選択中" else ""
  }

  // ---------------------------------------------------------------------------
  // The component
  // ---------------------------------------------------------------------------

  /**
   * The rows the table pages through: the filtered rows, sorted by `sortData` when a
   * column is chosen. It is a function of the view state, so every recompute from the
   * same state cuts its pages from the same sequence.
   */
  function SortedView(allData: seq<Row>, searchKey: string, sortedBy: string, sortDirection: string): seq<Row>
  {
    var filtered := Filter(allData, searchKey);
    if sortedBy == "" then filtered else InsertionSort(filtered, sortedBy, sortDirection)
  }

  /**
   * The view is exactly the filtered rows when no column is sorted, and otherwise a
   * permutation of them in comparator order; either way it has as many rows.
   */
  lemma SortedViewIsSorted(allData: seq<Row>, searchKey: string, sortedBy: string, sortDirection: string)
    ensures var view, filtered := SortedView(allData, searchKey, sortedBy, sortDirection), Filter(allData, searchKey);
      && |view| == |filtered|
      && multiset(view) == multiset(filtered)
      && (sortedBy == "" ==> view == filtered)
      && (sortedBy != "" ==> SortedBy(view, sortedBy, sortDirection))
  {
    if sortedBy != "" {
      InsertionSortIsSorted(Filter(allData, searchKey), sortedBy, sortDirection);
    }
  }

  /**
   * The derived fields agree with the inputs: `view` is the sorted, filtered rows, `totalRecords`
   * and `totalPages` count them, and `data` is page `currentPage` of them.
   */
  ghost predicate Displayed(view: seq<Row>, data: seq<Row>, allData: seq<Row>, searchKey: string,
                            sortedBy: string, sortDirection: string, pageSize: PageSize,
                            totalRecords: nat, totalPages: nat, currentPage: nat)
  {
    && view == SortedView(allData, searchKey, sortedBy, sortDirection)
    && totalRecords == |view|
    && totalPages == PageCount(totalRecords, pageSize)
    && data == Page(view, currentPage, pageSize)
  }

  class DataTable {
    const allData: seq<Row>
    var data: seq<Row>
    var sortedBy: string            // '' stands for the initial `undefined`: both are falsy
    var sortDirection: string
    var searchKey: string
    var selectedRows: seq<Row>
    var pageSize: PageSize
    var currentPage: nat
    var totalPages: nat
    var totalRecords: nat
    /** The whole filtered, sorted sequence the current page was cut from. */
    ghost var view: seq<Row>

    /** The derived fields agree with what the pipeline computes from the view state. */
    ghost predicate Consistent()
      reads this
    {
      Displayed(view, data, allData, searchKey, sortedBy, sortDirection, pageSize,
                totalRecords, totalPages, currentPage)
    }

    /**
     * The page is in range: `1 <= currentPage <= totalPages` when there are pages,
     * and 0 or 1 when there are none.
     */
    ghost predicate PageInRange()
      reads this
    {
      if totalPages >= 1 then 1 <= currentPage <= totalPages else currentPage <= 1
    }

    ghost predicate Valid()
      reads this
    {
      Consistent() && PageInRange()
    }

    /** The field initialisers; `allData` is the row collection handed to the table. */
    constructor (allData: seq<Row>)
      ensures this.allData == allData && data == [] && selectedRows == []
      ensures sortedBy == "" && sortDirection == "asc" && searchKey == ""
      ensures pageSize == 5 && currentPage == 1 && totalPages == 1 && totalRecords == 0
    {
      this.allData := allData;
      data := [];
      sortedBy := "";
      sortDirection := "asc";
      searchKey := "";
      selectedRows := [];
      pageSize := 5;
      currentPage := 1;
      totalPages := 1;
      totalRecords := 0;
      view := [];
    }

    /** `calculateTotalPages`. */
    method CalculateTotalPages()
      modifies this`totalPages
      ensures totalPages == PageCount(totalRecords, pageSize)
    {
      totalPages := (totalRecords + pageSize - 1) / pageSize;
    }

    /** `updateDisplayData`: filter, count, clamp the page, sort, slice. */
    method UpdateDisplayData()
      modifies this`totalRecords, this`totalPages, this`currentPage, this`data, this`view
      ensures Consistent()
      ensures totalRecords == |Filter(allData, searchKey)|
      ensures currentPage == ClampPage(old(currentPage), totalPages)
      ensures |data| <= pageSize
    {
      var filteredData := Filter(allData, searchKey);
      totalRecords := |filteredData|;
      CalculateTotalPages();
      if currentPage > totalPages {
        currentPage := 1;
      }
      if sortedBy != "" {
        filteredData := SortData(filteredData, sortedBy, sortDirection);
      }
      data := Page(filteredData, currentPage, pageSize);
      view := filteredData;
      PageContents(view, currentPage, pageSize);
    }

    /** `loadData`, run when the component is connected. */
    method LoadData()
      requires currentPage == 1
      modifies this`totalRecords, this`totalPages, this`currentPage, this`data, this`view
      ensures Valid()
      ensures currentPage == 1 && totalRecords == |Filter(allData, searchKey)|
    {
      totalRecords := |allData|;
      CalculateTotalPages();
      UpdateDisplayData();
    }

    /** `handleSort`: a new column and direction; the page stays where it was. */
    method HandleSort(fieldName: string, direction: string)
      requires Valid()
      modifies this`sortedBy, this`sortDirection, this`totalRecords, this`totalPages,
               this`currentPage, this`data, this`view
      ensures Valid()
      ensures sortedBy == fieldName && sortDirection == direction
      ensures currentPage == old(currentPage)
      ensures totalPages == old(totalPages) && totalRecords == old(totalRecords)
    {
      sortedBy := fieldName;
      sortDirection := direction;
      UpdateDisplayData();
    }

    /** `handleSearch`: a new key, back to the first page. */
    method HandleSearch(value: string)
      modifies this`searchKey, this`totalRecords, this`totalPages, this`currentPage, this`data, this`view
      ensures Valid()
      ensures searchKey == value && currentPage == 1
      ensures totalRecords == |Filter(allData, value)|
    {
      searchKey := value;
      currentPage := 1;
      UpdateDisplayData();
    }

    /** `handleClearSearch`: every row again, first page. */
    method HandleClearSearch()
      modifies this`searchKey, this`totalRecords, this`totalPages, this`currentPage, this`data, this`view
      ensures Valid()
      ensures searchKey == "" && currentPage == 1
      ensures totalRecords == |allData|
    {
      searchKey := "";
      currentPage := 1;
      UpdateDisplayData();
    }

    /** `handlePageSizeChange`: a new page size, first page. */
    method HandlePageSizeChange(size: PageSize)
      modifies this`pageSize, this`totalRecords, this`totalPages, this`currentPage, this`data, this`view
      ensures Valid()
      ensures pageSize == size && currentPage == 1
      ensures totalRecords == |Filter(allData, searchKey)|
    {
      pageSize := size;
      currentPage := 1;
      UpdateDisplayData();
    }

    /** `handleRowSelection`: remembers the selected rows. */
    method HandleRowSelection(rows: seq<Row>)
      modifies this`selectedRows
      ensures selectedRows == rows
    {
      selectedRows := rows;
    }

    /** `handlePrevious`: one page back unless already on page 1 (or 0). */
    method HandlePrevious()
      requires Valid()
      modifies this`totalRecords, this`totalPages, this`currentPage, this`data, this`view
      ensures Valid()
      ensures old(IsPreviousDisabled()) ==> unchanged(this)
      ensures !old(IsPreviousDisabled()) ==> currentPage == old(currentPage) - 1
      ensures totalPages == old(totalPages) && totalRecords == old(totalRecords)
      ensures view == old(view)
    {
      if currentPage > 1 {
        currentPage := currentPage - 1;
        UpdateDisplayData();
      }
    }

    /** `handleNext`: one page on unless already on the last page. */
    method HandleNext()
      requires Valid()
      modifies this`totalRecords, this`totalPages, this`currentPage, this`data, this`view
      ensures Valid()
      ensures old(IsNextDisabled()) ==> unchanged(this)
      ensures !old(IsNextDisabled()) ==> currentPage == old(currentPage) + 1
      ensures totalPages == old(totalPages) && totalRecords == old(totalRecords)
      ensures view == old(view)
    {
      if currentPage < totalPages {
        currentPage := currentPage + 1;
        UpdateDisplayData();
      }
    }

    /** `handleFirst`. */
    method HandleFirst()
      requires Valid()
      modifies this`totalRecords, this`totalPages, this`currentPage, this`data, this`view
      ensures Valid()
      ensures currentPage == 1
      ensures totalPages == old(totalPages) && totalRecords == old(totalRecords)
      ensures view == old(view)
    {
      currentPage := 1;
      UpdateDisplayData();
    }

    /** `handleLast`: jumps to page `totalPages`, which is page 0 when nothing matches. */
    method HandleLast()
      requires Valid()
      modifies this`totalRecords, this`totalPages, this`currentPage, this`data, this`view
      ensures Valid()
      ensures currentPage == old(totalPages)
      ensures totalPages == old(totalPages) && totalRecords == old(totalRecords)
      ensures view == old(view)
    {
      currentPage := totalPages;
      UpdateDisplayData();
    }

    /** `isPreviousDisabled`: on page 1, or on page 0 when there are no pages. */
    function IsPreviousDisabled(): (r: bool)
      reads this
      ensures Valid() ==> (r <==> currentPage == 1 || totalPages == 0)
    {
      currentPage <= 1
    }

    /** `isNextDisabled`: on the last page, or no pages at all. */
    function IsNextDisabled(): (r: bool)
      reads this
      ensures Valid() ==> (r <==> currentPage == totalPages || totalPages == 0)
    {
      currentPage >= totalPages
    }

    /** `paginationInfo`, as numbers; on a page from 1 on they span exactly the rows shown. */
    function PaginationInfo(): (r: PageInfo)
      reads this
      ensures r.totalRecords == totalRecords
      ensures Valid() && 1 <= currentPage ==> r.endRecord - r.startRecord + 1 == |data|
      ensures Valid() && totalRecords > 0 ==>
        1 <= r.startRecord <= r.endRecord <= |view| && data == view[r.startRecord - 1..r.endRecord]
    {
      PageFacts();
      Info(currentPage, pageSize, totalRecords)
    }

    /** The facts about the current page that the getters report. */
    lemma PageFacts()
      ensures Valid() && totalRecords > 0 ==>
        var info := Info(currentPage, pageSize, totalRecords);
        1 <= info.startRecord <= info.endRecord <= |view| && data == view[info.startRecord - 1..info.endRecord]
      ensures Valid() && totalRecords == 0 ==>
        data == [] && Info(currentPage, pageSize, totalRecords).endRecord == 0
        && Info(currentPage, pageSize, totalRecords).startRecord == if currentPage == 1 then 1 else 1 - pageSize
    {
      if Valid() && totalRecords > 0 {
        PageCountIsCeiling(totalRecords, pageSize);
        InfoMatchesPage(view, currentPage, pageSize);
      }
      if Valid() && totalRecords == 0 {
        PageCountIsCeiling(totalRecords, pageSize);
        InfoWhenEmpty(currentPage, pageSize);
      }
    }

    /** `paginationInfo`, as the displayed text. */
    function PaginationText(): string
      reads this
    {
      InfoText(PaginationInfo())
    }

    /** `hasSearchKey`: without a key the table shows every row. */
    function HasSearchKey(): (r: bool)
      reads this
      ensures r <==> |searchKey| > 0
      ensures !r ==> Filter(allData, searchKey) == allData
    {
      searchKey != "" && |searchKey| > 0
    }

    /** `selectedRowsText`. */
    function SelectedRowsText(): (r: string)
      reads this
      ensures r == "" <==> |selectedRows| == 0
    {
      SelectedText(|selectedRows|)
    }
  }
}
