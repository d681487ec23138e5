/** `Table::sort`: the in-place quicksort of the rows by one column, with its unusual partition. */
module TableSort {
  import opened Orders

  type Row = seq<string>

  /** A comparison function in the manner of `strcmp`: the sign of the result orders the values. */
  type Compare = (string, string) -> int

  /** All rows have the sort column. */
  ghost predicate HasColumn(s: seq<Row>, col: nat) {
    forall i | 0 <= i < |s| :: col < |s[i]|
  }

  /** The rows from `lo` to `hi`, both included, are in order. */
  ghost predicate Sorted(s: seq<Row>, col: nat, c: Compare, lo: int, hi: int)
    requires HasColumn(s, col) && 0 <= lo && hi < |s|
  {
    forall i, j | lo <= i <= j <= hi :: c(s[i][col], s[j][col]) <= 0
  }

  /** The rows from `lo` to `hi` are rearranged, and nothing else has changed. */
  ghost predicate Rearranged(s: seq<Row>, t: seq<Row>, lo: int, hi: int) {
    && 0 <= lo <= hi + 1 <= |s| == |t|
    && multiset(t[lo..hi + 1]) == multiset(s[lo..hi + 1])
    && (forall i | 0 <= i < |s| && !(lo <= i <= hi) :: t[i] == s[i])
  }

  function Swapped(s: seq<Row>, i: nat, j: nat): (t: seq<Row>)
    requires i < |s| && j < |s|
    ensures |t| == |s|
  {
    s[i := s[j]][j := s[i]]
  }

  lemma SwapRearranges(s: seq<Row>, lo: nat, hi: nat, i: nat, j: nat)
    requires lo <= i < j <= hi < |s|
    ensures Rearranged(s, Swapped(s, i, j), lo, hi)
  {
    var t := Swapped(s, i, j);
    var a, b := s[lo..hi + 1], t[lo..hi + 1];
    assert b == a[i - lo := a[j - lo]][j - lo := a[i - lo]];
  }

  lemma RearrangedTrans(s: seq<Row>, t: seq<Row>, u: seq<Row>, lo: int, hi: int)
    requires Rearranged(s, t, lo, hi) && Rearranged(t, u, lo, hi)
    ensures Rearranged(s, u, lo, hi)
  {
  }

  /** Rearranging a part is rearranging the whole. */
  lemma RearrangedPart(s: seq<Row>, t: seq<Row>, lo: int, hi: int, lo': int, hi': int)
    requires 0 <= lo <= lo' <= hi' + 1 <= hi + 1 <= |s| && Rearranged(s, t, lo', hi')
    ensures Rearranged(s, t, lo, hi)
  {
    assert s[lo..hi + 1] == s[lo..lo'] + s[lo'..hi' + 1] + s[hi' + 1..hi + 1];
    assert t[lo..hi + 1] == t[lo..lo'] + t[lo'..hi' + 1] + t[hi' + 1..hi + 1];
    assert s[lo..lo'] == t[lo..lo'] && s[hi' + 1..hi + 1] == t[hi' + 1..hi + 1];
  }

  /** What holds of all rows of a part still holds of all of them after they are rearranged. */
  lemma StillAll(s: seq<Row>, t: seq<Row>, lo: int, hi: int, p: Row -> bool)
    requires Rearranged(s, t, lo, hi) && forall i | lo <= i <= hi :: p(s[i])
    ensures forall i | lo <= i <= hi :: p(t[i])
  {
    forall i | lo <= i <= hi ensures p(t[i]) {
      var x := t[i];
      assert x == t[lo..hi + 1][i - lo];
      assert x in multiset(t[lo..hi + 1]) && x in multiset(s[lo..hi + 1]);
      assert x in s[lo..hi + 1];
      var k :| 0 <= k < hi + 1 - lo && s[lo..hi + 1][k] == x;
      assert s[lo + k] == x;
    }
  }

  /** Where the cursors of the partition stand: everything before `i` is at most the pivot, everything after `j` is
      greater, and a row equal to the pivot is between them. */
  ghost predicate Cursors(s: seq<Row>, col: nat, c: Compare, x: string, lo: nat, hi: nat, i: nat, j: nat)
    requires HasColumn(s, col)
  {
    && lo <= i <= j <= hi < |s|
    && (forall k | lo <= k < i :: c(s[k][col], x) <= 0)
    && (forall k | j < k <= hi :: c(s[k][col], x) >= 0)
    && exists k :: i <= k <= j && c(s[k][col], x) == 0
  }

  /** How often the cursors can still swap without moving. */
  function Idle(s: seq<Row>, col: nat, c: Compare, x: string, i: nat, j: nat): nat
    requires i < |s| && j < |s| && col < |s[i]| && col < |s[j]|
  {
    if c(s[i][col], x) < 0 || c(s[j][col], x) > 0 then 0 else 1
  }

  /** Rows around the pivot's final place `i`. */
  ghost predicate Split(s: seq<Row>, col: nat, c: Compare, x: string, lo: nat, hi: nat, i: nat)
    requires HasColumn(s, col)
  {
    && lo <= i <= hi < |s| && c(s[i][col], x) == 0
    && (forall k | lo <= k < i :: c(s[k][col], x) <= 0)
    && (forall k | i < k <= hi :: c(s[k][col], x) >= 0)
  }

  /** Sorting one side keeps the rows on their side. */
  lemma SplitKept(s: seq<Row>, t: seq<Row>, col: nat, c: Compare, x: string, lo: nat, hi: nat, i: nat, left: bool)
    requires HasColumn(s, col) && HasColumn(t, col) && Split(s, col, c, x, lo, hi, i)
    requires if left then Rearranged(s, t, lo, i - 1) else Rearranged(s, t, i + 1, hi)
    ensures Split(t, col, c, x, lo, hi, i) && Rearranged(s, t, lo, hi)
    ensures if left then forall k | i <= k <= hi :: t[k] == s[k] else forall k | lo <= k <= i :: t[k] == s[k]
  {
    if left {
      StillAll(s, t, lo, i - 1, r => col < |r| && c(r[col], x) <= 0);
      RearrangedPart(s, t, lo, hi, lo, i - 1);
    } else {
      StillAll(s, t, i + 1, hi, r => col < |r| && c(r[col], x) >= 0);
      RearrangedPart(s, t, lo, hi, i + 1, hi);
    }
  }

  /** Two ordered sides make an ordered whole. */
  lemma SidesSorted(s: seq<Row>, col: nat, c: Compare, x: string, lo: nat, hi: nat, i: nat)
    requires Preorder(c) && HasColumn(s, col) && Split(s, col, c, x, lo, hi, i)
    requires Sorted(s, col, c, lo, i - 1) && Sorted(s, col, c, i + 1, hi)
    ensures Sorted(s, col, c, lo, hi)
  {
    forall k, m | lo <= k <= m <= hi ensures c(s[k][col], s[m][col]) <= 0 {
      if k <= i <= m {
        Below(c, s[k][col], x);
        assert c(s[k][col], x) <= 0 && c(x, s[m][col]) <= 0 by { Below(c, s[m][col], x); }
      }
    }
  }

  /** The two ways to compare agree. */
  lemma Below(c: Compare, a: string, x: string)
    requires Preorder(c)
    ensures c(a, x) >= 0 <==> c(x, a) <= 0
    ensures c(a, x) == 0 <==> c(x, a) == 0
  {
  }

  lemma OneIsSorted(s: seq<Row>, col: nat, c: Compare, lo: int, hi: int)
    requires Preorder(c) && HasColumn(s, col) && 0 <= lo && hi < |s| && hi <= lo
    ensures Sorted(s, col, c, lo, hi)
  {
    if lo == hi { Below(c, s[lo][col], s[lo][col]); }
  }

  lemma Unchanged(s: seq<Row>, lo: int, hi: int)
    requires 0 <= lo <= hi + 1 <= |s|
    ensures Rearranged(s, s, lo, hi)
  {
  }

  lemma SameSorted(s: seq<Row>, t: seq<Row>, col: nat, c: Compare, lo: nat, hi: int)
    requires HasColumn(s, col) && HasColumn(t, col) && hi < |s| == |t| && Sorted(s, col, c, lo, hi)
    requires forall k | lo <= k <= hi :: t[k] == s[k]
    ensures Sorted(t, col, c, lo, hi)
  {
  }

  /** The rows around a pivot, sorted on either side, make the whole range sorted. */
  lemma PartsSorted(s0: seq<Row>, s1: seq<Row>, s2: seq<Row>, s3: seq<Row>, col: nat, c: Compare, x: string, lo: nat, hi: nat, i: nat)
    requires Preorder(c) && HasColumn(s1, col) && HasColumn(s2, col) && HasColumn(s3, col) && lo <= i <= hi
    requires Rearranged(s0, s1, lo, hi) && Split(s1, col, c, x, lo, hi, i)
    requires Rearranged(s1, s2, lo, i - 1) && Sorted(s2, col, c, lo, i - 1)
    requires Rearranged(s2, s3, i + 1, hi) && Sorted(s3, col, c, i + 1, hi)
    ensures Sorted(s3, col, c, lo, hi) && Rearranged(s0, s3, lo, hi)
  {
    hide Preorder, Sorted, Rearranged, HasColumn, Split;
    SplitKept(s1, s2, col, c, x, lo, hi, i, true);
    SplitKept(s2, s3, col, c, x, lo, hi, i, false);
    SameSorted(s2, s3, col, c, lo, i - 1);
    SidesSorted(s3, col, c, x, lo, hi, i);
    RearrangedTrans(s1, s2, s3, lo, hi);
    RearrangedTrans(s0, s1, s3, lo, hi);
  }

  /** `aSort`: puts the rows from `start` to `end` in ascending order. */
  method ASort(data: array<Row>, col: nat, start: nat, end: nat, compare: Compare)
    requires start <= end < data.Length && HasColumn(data[..], col) && Preorder(compare)
    modifies data
    ensures HasColumn(data[..], col) && Sorted(data[..], col, compare, start, end)
    ensures Rearranged(old(data[..]), data[..], start, end)
    decreases end - start
  {
    hide Preorder, Sorted, Rearranged, HasColumn;
    var i, x := Partition(data, col, start, end, compare);
    var last: int := i as int - 1;
    ghost var s1 := data[..];
    if start + 1 < i {
      ASort(data, col, start, i - 1, compare);
    } else {
      OneIsSorted(s1, col, compare, start, last);
      Unchanged(s1, start, last);
    }
    ghost var s2 := data[..];
    if end > i + 1 {
      ASort(data, col, i + 1, end, compare);
    } else {
      OneIsSorted(s2, col, compare, i + 1, end);
      Unchanged(s2, i + 1, end);
    }
    PartsSorted(old(data[..]), s1, s2, data[..], col, compare, x, start, end, i);
  }

  /** A row not below the pivot and a row not above it that compare equal are both equal to the pivot. */
  lemma BothEqual(c: Compare, a: string, b: string, x: string)
    requires Preorder(c) && c(a, b) == 0 && c(a, x) >= 0 && c(b, x) <= 0
    ensures c(a, x) == 0 && c(b, x) == 0
  {
    Below(c, a, x);
    Below(c, b, x);
    Below(c, a, b);
    Trans(c, a, b, x);
    Trans(c, x, a, b) by { assert c(x, a) <= 0; }
  }

  /** A row passed because it equals a later one that is not above the pivot: that one equals the pivot, and it is not above. */
  lemma EqualToPivot(c: Compare, a: string, b: string, x: string)
    requires Preorder(c) && c(a, b) == 0 && c(b, x) <= 0 && (c(a, x) >= 0 || c(b, x) == 0)
    ensures c(a, x) <= 0 && c(b, x) == 0
  {
    hide Preorder;
    if c(b, x) != 0 { BothEqual(c, a, b, x); }
    Below(c, a, b);
    Trans(c, a, b, x);
  }

  /** The partition: the cursors meet on a row that is equal to the pivot. */
  method Partition(data: array<Row>, col: nat, start: nat, end: nat, compare: Compare) returns (i: nat, x: string)
    requires start <= end < data.Length && HasColumn(data[..], col) && Preorder(compare)
    modifies data
    ensures x == old(data[(start + end) / 2][col])
    ensures HasColumn(data[..], col) && Split(data[..], col, compare, x, start, end, i)
    ensures Rearranged(old(data[..]), data[..], start, end)
  {
    hide Preorder, Rearranged;
    x := data[(start + end) / 2][col];
    i := start;
    var j: nat := end;
    ghost var s0 := data[..];
    Below(compare, x, x);
    Reflexive(compare, x);
    Unchanged(s0, start, end);
    while true
      invariant HasColumn(data[..], col) && Cursors(data[..], col, compare, x, start, end, i, j)
      invariant Rearranged(s0, data[..], start, end)
      decreases j - i, Idle(data[..], col, compare, x, i, j)
    {
      ghost var s := data[..];
      i, j := Approach(data, col, start, end, compare, x, i, j);
      if i == j { return; }
      data[i], data[j] := data[j], data[i];
      assert data[..] == Swapped(s, i, j);
      SwapRearranges(s, start, end, i, j);
      RearrangedTrans(s0, s, data[..], start, end);
      SwapKeeps(s, col, compare, x, start, end, i, j);
    }
  }

  /** Swapping keeps the cursors' invariant, and afterwards one of them can move if none could before. */
  lemma SwapKeeps(s: seq<Row>, col: nat, c: Compare, x: string, lo: nat, hi: nat, i: nat, j: nat)
    requires Preorder(c) && HasColumn(s, col) && Cursors(s, col, c, x, lo, hi, i, j) && i < j
    requires c(s[j][col], x) <= 0 && c(s[i][col], s[j][col]) != 0
    ensures HasColumn(Swapped(s, i, j), col) && Cursors(Swapped(s, i, j), col, c, x, lo, hi, i, j)
    ensures c(s[i][col], x) >= 0 ==> Idle(Swapped(s, i, j), col, c, x, i, j) == 0
  {
    hide Preorder;
    var t := Swapped(s, i, j);
    var k :| i <= k <= j && c(s[k][col], x) == 0;
    assert c(t[if k == i then j else if k == j then i else k][col], x) == 0;
    if c(s[i][col], x) == 0 && c(s[j][col], x) == 0 {
      Below(c, s[i][col], x);
      Below(c, s[j][col], x);
      Trans(c, s[i][col], x, s[j][col]);
      Trans(c, s[j][col], x, s[i][col]);
      Below(c, s[i][col], s[j][col]);
    }
  }

  lemma CursorBounds(s: seq<Row>, col: nat, c: Compare, x: string, lo: nat, hi: nat, i: nat, j: nat)
    requires HasColumn(s, col) && Cursors(s, col, c, x, lo, hi, i, j)
    ensures lo <= i <= j <= hi < |s|
  {
  }

  /** The left cursor passes rows below the pivot, the right one rows above it, */
  lemma UpKeeps(s: seq<Row>, col: nat, c: Compare, x: string, lo: nat, hi: nat, i: nat, j: nat)
    requires HasColumn(s, col) && Cursors(s, col, c, x, lo, hi, i, j) && c(s[i][col], x) < 0
    ensures i < j && Cursors(s, col, c, x, lo, hi, i + 1, j)
  {
  }

  lemma DownKeeps(s: seq<Row>, col: nat, c: Compare, x: string, lo: nat, hi: nat, i: nat, j: nat)
    requires HasColumn(s, col) && Cursors(s, col, c, x, lo, hi, i, j) && c(s[j][col], x) > 0
    ensures i < j && Cursors(s, col, c, x, lo, hi, i, j - 1)
  {
  }

  /** and the left one goes on over rows equal to the right one's, which then equals the pivot. */
  lemma EqualKeeps(s: seq<Row>, col: nat, c: Compare, x: string, lo: nat, hi: nat, i: nat, j: nat)
    requires Preorder(c) && HasColumn(s, col) && Cursors(s, col, c, x, lo, hi, i, j) && i < j
    requires c(s[i][col], s[j][col]) == 0 && c(s[j][col], x) <= 0 && (c(s[i][col], x) >= 0 || c(s[j][col], x) == 0)
    ensures c(s[j][col], x) == 0 && Cursors(s, col, c, x, lo, hi, i + 1, j)
  {
    hide Preorder;
    EqualToPivot(c, s[i][col], s[j][col], x);
  }

  /** Where there is no more room to go, the row is equal to the pivot. */
  lemma LastRow(s: seq<Row>, col: nat, c: Compare, x: string, lo: nat, hi: nat, i: nat)
    requires HasColumn(s, col) && Cursors(s, col, c, x, lo, hi, i, i)
    ensures c(s[i][col], x) == 0
  {
  }

  /** The three inner loops: to a row not below the pivot, to a row not above it, and on over rows equal to the latter. */
  method Approach(data: array<Row>, col: nat, start: nat, end: nat, compare: Compare, x: string, i0: nat, j0: nat)
    returns (i: nat, j: nat)
    requires end < data.Length && HasColumn(data[..], col) && Preorder(compare)
    requires Cursors(data[..], col, compare, x, start, end, i0, j0)
    ensures Cursors(data[..], col, compare, x, start, end, i, j) && i0 <= i && j <= j0
    ensures if i == j then compare(data[i][col], x) == 0
            else compare(data[i][col], data[j][col]) != 0 && compare(data[j][col], x) <= 0
    ensures i == i0 && j == j0 ==> compare(data[i][col], x) >= 0 && Idle(data[..], col, compare, x, i0, j0) == 1
  {
    hide Preorder, Cursors;
    ghost var s := data[..];
    CursorBounds(s, col, compare, x, start, end, i0, j0);
    i, j := i0, j0;
    while i < end && compare(data[i][col], x) < 0
      invariant i0 <= i <= j && Cursors(s, col, compare, x, start, end, i, j)
    {
      UpKeeps(s, col, compare, x, start, end, i, j);
      i := i + 1;
    }
    while j > 0 && compare(data[j][col], x) > 0
      invariant i <= j <= j0 && Cursors(s, col, compare, x, start, end, i, j)
    {
      DownKeeps(s, col, compare, x, start, end, i, j);
      j := j - 1;
    }
    ghost var i1 := i;
    while i < end && i != j && compare(data[i][col], data[j][col]) == 0
      invariant i1 <= i <= j && Cursors(s, col, compare, x, start, end, i, j)
      invariant i > i1 ==> compare(data[j][col], x) == 0
    {
      EqualKeeps(s, col, compare, x, start, end, i, j);
      i := i + 1;
    }
    if i == j { LastRow(s, col, compare, x, start, end, i); }
  }

  // ---- Descending order ----

  /** The comparison the other way round. */
  function Flipped(c: Compare): Compare {
    (a, b) => -c(a, b)
  }

  lemma FlippedPreorder(c: Compare)
    requires Preorder(c)
    ensures Preorder(Flipped(c))
  {
    var f := Flipped(c);
    forall a, b ensures f(a, b) < 0 <==> f(b, a) > 0 { Below(c, a, b); Below(c, b, a); }
    forall a, b, d | f(a, b) <= 0 && f(b, d) <= 0 ensures f(a, d) <= 0 {
      Below(c, a, b);
      Below(c, b, d);
      Below(c, a, d);
      Trans(c, d, b, a);
    }
  }

  /** The two comparisons always answer the opposite. */
  ghost predicate Opposite(c: Compare, f: Compare) {
    Preorder(c) && Preorder(f) && forall a, b :: f(a, b) == -c(a, b)
  }

  lemma FlippedIsOpposite(c: Compare)
    requires Preorder(c)
    ensures Opposite(c, Flipped(c))
  {
    FlippedPreorder(c);
  }

  lemma OppositeAt(c: Compare, f: Compare, a: string, b: string)
    requires Opposite(c, f)
    ensures Preorder(f) && f(a, b) == -c(a, b)
  {
  }

  /** The steps of the cursors, told by the comparison that is used. */
  lemma PassesLarger(s: seq<Row>, col: nat, c: Compare, f: Compare, x: string, lo: nat, hi: nat, i: nat, j: nat)
    requires Opposite(c, f) && HasColumn(s, col) && Cursors(s, col, f, x, lo, hi, i, j) && c(s[i][col], x) > 0
    ensures i < j && Cursors(s, col, f, x, lo, hi, i + 1, j)
  {
    hide Opposite, Cursors;
    CursorBounds(s, col, f, x, lo, hi, i, j);
    OppositeAt(c, f, s[i][col], x);
    UpKeeps(s, col, f, x, lo, hi, i, j);
  }

  lemma PassesSmaller(s: seq<Row>, col: nat, c: Compare, f: Compare, x: string, lo: nat, hi: nat, i: nat, j: nat)
    requires Opposite(c, f) && HasColumn(s, col) && Cursors(s, col, f, x, lo, hi, i, j) && c(s[j][col], x) < 0
    ensures i < j && Cursors(s, col, f, x, lo, hi, i, j - 1)
  {
    hide Opposite, Cursors;
    CursorBounds(s, col, f, x, lo, hi, i, j);
    OppositeAt(c, f, s[j][col], x);
    DownKeeps(s, col, f, x, lo, hi, i, j);
  }

  lemma PassesEqual(s: seq<Row>, col: nat, c: Compare, f: Compare, x: string, lo: nat, hi: nat, i: nat, j: nat)
    requires Opposite(c, f) && HasColumn(s, col) && Cursors(s, col, f, x, lo, hi, i, j) && i < j
    requires c(s[i][col], s[j][col]) == 0 && c(s[j][col], x) >= 0 && (c(s[i][col], x) <= 0 || c(s[j][col], x) == 0)
    ensures c(s[j][col], x) == 0 && Cursors(s, col, f, x, lo, hi, i + 1, j)
  {
    hide Opposite, Cursors, Preorder;
    CursorBounds(s, col, f, x, lo, hi, i, j);
    OppositeAt(c, f, s[i][col], s[j][col]);
    OppositeAt(c, f, s[j][col], x);
    OppositeAt(c, f, s[i][col], x);
    EqualKeeps(s, col, f, x, lo, hi, i, j);
  }

  /** Where the cursors stop. */
  lemma Stopped(s: seq<Row>, col: nat, c: Compare, f: Compare, x: string, lo: nat, hi: nat, i: nat, j: nat)
    requires Opposite(c, f) && HasColumn(s, col) && Cursors(s, col, f, x, lo, hi, i, j)
    ensures i == j ==> f(s[i][col], x) == 0 && c(s[i][col], x) == 0
    ensures f(s[i][col], s[j][col]) == -c(s[i][col], s[j][col])
    ensures f(s[i][col], x) == -c(s[i][col], x) && f(s[j][col], x) == -c(s[j][col], x)
  {
    hide Opposite, Cursors, Preorder;
    CursorBounds(s, col, f, x, lo, hi, i, j);
    OppositeAt(c, f, s[i][col], s[j][col]);
    OppositeAt(c, f, s[j][col], x);
    OppositeAt(c, f, s[i][col], x);
    if i == j { LastRow(s, col, f, x, lo, hi, i); }
  }

  /** The three inner loops of `dSort`, which look for a row not above the pivot first, and then for one not below it. */
  method DescendingApproach(data: array<Row>, col: nat, start: nat, end: nat, compare: Compare, ghost f: Compare, x: string,
                            i0: nat, j0: nat) returns (i: nat, j: nat)
    requires end < data.Length && HasColumn(data[..], col) && Opposite(compare, f)
    requires Cursors(data[..], col, f, x, start, end, i0, j0)
    ensures Cursors(data[..], col, f, x, start, end, i, j) && i0 <= i && j <= j0
    ensures if i == j then f(data[i][col], x) == 0
            else f(data[i][col], data[j][col]) != 0 && f(data[j][col], x) <= 0
    ensures i == i0 && j == j0 ==> f(data[i][col], x) >= 0 && Idle(data[..], col, f, x, i0, j0) == 1
  {
    hide Preorder, Cursors, Opposite;
    ghost var s := data[..];
    CursorBounds(s, col, f, x, start, end, i0, j0);
    i, j := i0, j0;
    while i < end && compare(data[i][col], x) > 0
      invariant i0 <= i <= j && Cursors(s, col, f, x, start, end, i, j)
    {
      PassesLarger(s, col, compare, f, x, start, end, i, j);
      i := i + 1;
    }
    while j > 0 && compare(data[j][col], x) < 0
      invariant i <= j <= j0 && Cursors(s, col, f, x, start, end, i, j)
    {
      PassesSmaller(s, col, compare, f, x, start, end, i, j);
      j := j - 1;
    }
    ghost var i1 := i;
    while i < end && i != j && compare(data[i][col], data[j][col]) == 0
      invariant i1 <= i <= j && Cursors(s, col, f, x, start, end, i, j)
      invariant i > i1 ==> compare(data[j][col], x) == 0
    {
      PassesEqual(s, col, compare, f, x, start, end, i, j);
      i := i + 1;
    }
    Stopped(s, col, compare, f, x, start, end, i, j);
  }

  /** The partition of `dSort`. */
  method DescendingPartition(data: array<Row>, col: nat, start: nat, end: nat, compare: Compare) returns (i: nat, x: string)
    requires start <= end < data.Length && HasColumn(data[..], col) && Preorder(compare)
    modifies data
    ensures x == old(data[(start + end) / 2][col])
    ensures HasColumn(data[..], col) && Split(data[..], col, Flipped(compare), x, start, end, i)
    ensures Rearranged(old(data[..]), data[..], start, end)
  {
    hide Preorder, Rearranged, Flipped;
    x := data[(start + end) / 2][col];
    i := start;
    var j: nat := end;
    ghost var s0, f := data[..], Flipped(compare);
    FlippedIsOpposite(compare);
    Below(f, x, x);
    Reflexive(f, x);
    Unchanged(s0, start, end);
    while true
      invariant HasColumn(data[..], col) && Cursors(data[..], col, f, x, start, end, i, j)
      invariant Rearranged(s0, data[..], start, end)
      decreases j - i, Idle(data[..], col, f, x, i, j)
    {
      ghost var s := data[..];
      i, j := DescendingApproach(data, col, start, end, compare, f, x, i, j);
      if i == j { return; }
      data[i], data[j] := data[j], data[i];
      assert data[..] == Swapped(s, i, j);
      SwapRearranges(s, start, end, i, j);
      RearrangedTrans(s0, s, data[..], start, end);
      SwapKeeps(s, col, f, x, start, end, i, j);
    }
  }

  /** `dSort`: puts the rows from `start` to `end` in descending order. */
  method DSort(data: array<Row>, col: nat, start: nat, end: nat, compare: Compare)
    requires start <= end < data.Length && HasColumn(data[..], col) && Preorder(compare)
    modifies data
    ensures HasColumn(data[..], col) && Sorted(data[..], col, Flipped(compare), start, end)
    ensures Rearranged(old(data[..]), data[..], start, end)
    decreases end - start
  {
    hide Preorder, Sorted, Rearranged, HasColumn, Flipped;
    ghost var f := Flipped(compare);
    FlippedPreorder(compare);
    var i, x := DescendingPartition(data, col, start, end, compare);
    var last: int := i as int - 1;
    ghost var s1 := data[..];
    if start + 1 < i {
      DSort(data, col, start, i - 1, compare);
    } else {
      OneIsSorted(s1, col, f, start, last);
      Unchanged(s1, start, last);
    }
    ghost var s2 := data[..];
    if end > i + 1 {
      DSort(data, col, i + 1, end, compare);
    } else {
      OneIsSorted(s2, col, f, i + 1, end);
      Unchanged(s2, i + 1, end);
    }
    PartsSorted(old(data[..]), s1, s2, data[..], col, f, x, start, end, i);
  }

  /** `Table::sort`, when the sort column has a comparison. */
  method Sort(data: array<Row>, col: nat, ascent: bool, compare: Compare)
    requires HasColumn(data[..], col) && Preorder(compare)
    modifies data
    ensures HasColumn(data[..], col) && Rearranged(old(data[..]), data[..], 0, data.Length - 1)
    ensures Sorted(data[..], col, if ascent then compare else Flipped(compare), 0, data.Length - 1)
    ensures forall i, j | 0 <= i <= j < data.Length ::
      var a, b := data[..][i][col], data[..][j][col]; if ascent then compare(a, b) <= 0 else compare(a, b) >= 0
  {
    Unchanged(data[..], 0, data.Length - 1);
    if data.Length > 1 && ascent {
      ASort(data, col, 0, data.Length - 1, compare);
    } else if data.Length > 1 {
      DSort(data, col, 0, data.Length - 1, compare);
    } else if data.Length == 1 {
      FlippedPreorder(compare);
      OneIsSorted(data[..], col, if ascent then compare else Flipped(compare), 0, 0);
    }
  }
}
