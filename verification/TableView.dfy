/** `Table`: the wrap-around search, the selected row and the scrolled window. */
module TableView {

  // ---- Searching ----

  /** The row that the search looks at as number `k`, counted from the start row. */
  function Cyclic(start: nat, k: nat, n: nat, rev: bool): int {
    if rev then (if k <= start then start - k else n + start - k)
    else if start + k < n then start + k
    else start + k - n
  }

  /** The number of the turn in which the search looks at `row`. */
  function Turn(start: nat, row: nat, n: nat, rev: bool): int {
    if rev then (if row <= start then start - row else n + start - row)
    else if row >= start then row - start
    else n + row - start
  }

  /** In `n` turns every row is looked at exactly once. */
  lemma CyclicVisitsAll(start: nat, n: nat, rev: bool)
    requires start < n
    ensures forall k: nat | k < n ::
      0 <= Cyclic(start, k, n, rev) < n && Turn(start, Cyclic(start, k, n, rev), n, rev) == k
    ensures forall row: nat | row < n ::
      0 <= Turn(start, row, n, rev) < n && Cyclic(start, Turn(start, row, n, rev), n, rev) == row
  {
  }

  /** The row matches: one column, or any of them if `col` is the number of columns. */
  predicate RowMatches(row: seq<string>, col: nat, match_: string -> bool) {
    if col == |row| then exists c | 0 <= c < |row| :: match_(row[c]) else col < |row| && match_(row[col])
  }

  /** `search_row`. */
  method SearchRow(row: seq<string>, col: nat, match_: string -> bool) returns (found: bool)
    requires col <= |row|
    ensures found == RowMatches(row, col, match_)
  {
    if col == |row| {
      for c := 0 to |row|
        invariant forall i | 0 <= i < c :: !match_(row[i])
      {
        if match_(row[c]) { return true; }
      }
      return false;
    }
    found := match_(row[col]);
  }

  /** The rows `looked` are the first ones in cyclic order. */
  ghost predicate InTurn(row: nat, n: nat, rev: bool, looked: seq<int>) {
    |looked| <= n && forall k: nat | k < |looked| :: looked[k] == Cyclic(row, k, n, rev)
  }

  /** They have been looked at, and none of them matches. */
  ghost predicate Passed(data: seq<seq<string>>, row: nat, col: nat, rev: bool, match_: string -> bool, looked: seq<int>) {
    && InTurn(row, |data|, rev, looked)
    && forall k: nat | k < |looked| :: 0 <= looked[k] < |data| && !RowMatches(data[looked[k]], col, match_)
  }

  /** The row `at` is the first match in cyclic order. */
  ghost predicate FirstMatch(data: seq<seq<string>>, row: nat, col: nat, rev: bool, match_: string -> bool, at: int) {
    && 0 <= at < |data| && RowMatches(data[at], col, match_)
    && forall i | 0 <= i < |data| && Turn(row, i, |data|, rev) < Turn(row, at, |data|, rev) :: !RowMatches(data[i], col, match_)
  }

  /** No row from `lo` up to `hi` matches. */
  ghost predicate NoMatchIn(data: seq<seq<string>>, lo: int, hi: int, col: nat, match_: string -> bool) {
    forall i | lo <= i < hi && 0 <= i < |data| :: !RowMatches(data[i], col, match_)
  }

  /** What that means by row numbers: going down the table from the start row, and on from its top; or going up, and on from
      its bottom. */
  ghost predicate NoneOnTheWay(data: seq<seq<string>>, row: nat, col: nat, rev: bool, match_: string -> bool, at: int) {
    if rev then
      if at <= row then NoMatchIn(data, at + 1, row + 1, col, match_)
      else NoMatchIn(data, 0, row + 1, col, match_) && NoMatchIn(data, at + 1, |data|, col, match_)
    else
      if at >= row then NoMatchIn(data, row, at, col, match_)
      else NoMatchIn(data, row, |data|, col, match_) && NoMatchIn(data, 0, at, col, match_)
  }

  lemma {:induction false} FirstByRow(data: seq<seq<string>>, row: nat, col: nat, rev: bool, match_: string -> bool, at: int)
    requires row < |data| && FirstMatch(data, row, col, rev, match_, at)
    ensures NoneOnTheWay(data, row, col, rev, match_, at)
  {
    hide RowMatches;
  }

  lemma Looked(data: seq<seq<string>>, row: nat, col: nat, rev: bool, match_: string -> bool, looked: seq<int>, at: nat)
    requires row < |data| && at < |data| && 0 < |looked| <= |data|
    requires Passed(data, row, col, rev, match_, looked[..|looked| - 1])
    requires looked[|looked| - 1] == at == Cyclic(row, |looked| - 1, |data|, rev)
    ensures InTurn(row, |data|, rev, looked)
    ensures if RowMatches(data[at], col, match_) then FirstMatch(data, row, col, rev, match_, at)
            else Passed(data, row, col, rev, match_, looked)
  {
    var before := looked[..|looked| - 1];
    CyclicVisitsAll(row, |data|, rev);
    forall i | 0 <= i < |data| && Turn(row, i, |data|, rev) < |before| ensures !RowMatches(data[i], col, match_) {
      assert before[Turn(row, i, |data|, rev)] == i;
    }
  }

  lemma NoneMatches(data: seq<seq<string>>, row: nat, col: nat, rev: bool, match_: string -> bool, looked: seq<int>)
    requires row < |data| && Passed(data, row, col, rev, match_, looked) && |looked| == |data|
    ensures !exists r | r in data :: RowMatches(r, col, match_)
  {
    CyclicVisitsAll(row, |data|, rev);
    forall r | r in data ensures !RowMatches(r, col, match_) {
      var i: nat :| i < |data| && data[i] == r;
      assert looked[Turn(row, i, |data|, rev)] == i;
    }
  }

  /** `Table::search`: `valid` says whether the expression could be compiled. `looked` are the rows looked at, in order:
      one after the other in cyclic order, so none of them twice. */
  method Search(data: seq<seq<string>>, nCols: nat, row: int, col: int, rev: bool, valid: bool, match_: string -> bool)
    returns (found: bool, at: int, ghost looked: seq<int>)
    requires forall r | r in data :: |r| == nCols
    ensures found <==> 0 <= col <= nCols && 0 <= row < |data| && valid && exists r | r in data :: RowMatches(r, col, match_)
    ensures found ==> FirstMatch(data, row, col, rev, match_, at) && NoneOnTheWay(data, row, col, rev, match_, at)
    ensures 0 <= row < |data| ==> InTurn(row, |data|, rev, looked)
  {
    hide RowMatches, Turn;
    found, at, looked := false, row, [];
    if col < 0 || col > nCols || row < 0 || row >= |data| { return; }
    if !valid { return; }
    if rev {
      while at >= 0
        invariant -1 <= at <= row && |looked| == row - at
        invariant Passed(data, row, col, rev, match_, looked)
      {
        looked := looked + [at];
        found := SearchRow(data[at], col, match_);
        Looked(data, row, col, rev, match_, looked, at);
        if found { FirstByRow(data, row, col, rev, match_, at); return; }
        at := at - 1;
      }
      at := |data| - 1;
      while at > row
        invariant row <= at < |data| && |looked| == row + 1 + (|data| - 1 - at)
        invariant Passed(data, row, col, rev, match_, looked)
      {
        looked := looked + [at];
        found := SearchRow(data[at], col, match_);
        Looked(data, row, col, rev, match_, looked, at);
        if found { FirstByRow(data, row, col, rev, match_, at); return; }
        at := at - 1;
      }
    } else {
      while at < |data|
        invariant row <= at <= |data| && |looked| == at - row
        invariant Passed(data, row, col, rev, match_, looked)
      {
        looked := looked + [at];
        found := SearchRow(data[at], col, match_);
        Looked(data, row, col, rev, match_, looked, at);
        if found { FirstByRow(data, row, col, rev, match_, at); return; }
        at := at + 1;
      }
      at := 0;
      while at < row
        invariant 0 <= at <= row && |looked| == |data| - row + at
        invariant Passed(data, row, col, rev, match_, looked)
      {
        looked := looked + [at];
        found := SearchRow(data[at], col, match_);
        Looked(data, row, col, rev, match_, looked, at);
        if found { FirstByRow(data, row, col, rev, match_, at); return; }
        at := at + 1;
      }
    }
    NoneMatches(data, row, col, rev, match_, looked);
  }

  // ---- The window ----

  /** The part of the widget that keyboard navigation works on. Sizes and positions are in pixels. */
  class View {
    const nRows: nat
    const rowHeight: nat
    const iH: nat
    var selected: int
    var scroll: int
    var topRow: int
    var topRowY: int
    var bottomRow: int

    /** There are more rows than the window holds. */
    predicate Overflows()
      requires rowHeight > 0
    {
      nRows > iH / rowHeight
    }

    /** The window lies inside the table. */
    ghost predicate Inside()
      reads this
    {
      0 <= scroll <= rowHeight * nRows - iH
    }

    ghost predicate RowVisible(row: int)
      reads this
    {
      0 <= row < nRows && scroll <= rowHeight * row && rowHeight * (row + 1) <= scroll + iH
    }

    /** The rows to be drawn are the ones computed last. */
    ghost predicate Drawn()
      reads this
    {
      && rowHeight > 0 && nRows > 0
      && topRow == (if scroll / rowHeight >= nRows then nRows - 1 else scroll / rowHeight) && topRowY == topRow * rowHeight
      && bottomRow == (if (scroll + iH) / rowHeight >= nRows then nRows - 1 else (scroll + iH) / rowHeight)
    }

    /** Rows overflow the window, which holds at least one, and the selected row is in range and fully inside it. */
    ghost predicate Shown()
      reads this
    {
      0 < rowHeight <= iH && Overflows() && Inside() && RowVisible(selected)
    }

    /** The scroll position after scrolling to `pos`: the nearest one that keeps the window inside the table. */
    ghost function Position(pos: int): (p: int)
      requires rowHeight > 0
      reads this
    {
      var max := rowHeight * nRows - iH;
      if !Overflows() then scroll else if pos < 0 then 0 else if pos > max then max else pos
    }

    constructor (nRows: nat, rowHeight: nat, iH: nat, selected: int, scroll: int)
      ensures this.nRows == nRows && this.rowHeight == rowHeight && this.iH == iH
      ensures this.selected == selected && this.scroll == scroll
    {
      this.nRows, this.rowHeight, this.iH := nRows, rowHeight, iH;
      this.selected, this.scroll := selected, scroll;
    }

    /** Every row that reaches into the window is drawn. */
    lemma RowsInside(row: int)
      requires Drawn() && 0 <= row < nRows && scroll >= 0
      requires rowHeight * (row + 1) > scroll && rowHeight * row < scroll + iH
      ensures topRow <= row <= bottomRow
    {
      RoundedDown(scroll, rowHeight);
      RoundedDown(scroll + iH, rowHeight);
      if row < scroll / rowHeight { Monotone(rowHeight, row + 1, scroll / rowHeight); }
      if row > (scroll + iH) / rowHeight { Monotone(rowHeight, (scroll + iH) / rowHeight + 1, row); }
    }

    /** And no row is drawn that does not reach up to the window, as long as the window begins inside the table. */
    lemma RowsOutside(row: int)
      requires Drawn() && topRow <= row <= bottomRow && 0 <= scroll < rowHeight * nRows
      ensures 0 <= row < nRows && rowHeight * (row + 1) > scroll && rowHeight * row <= scroll + iH
    {
      InsideRow(scroll, rowHeight, nRows);
      RoundedDown(scroll, rowHeight);
      RoundedDown(scroll + iH, rowHeight);
      var first, last := scroll / rowHeight, (scroll + iH) / rowHeight;
      assert first <= row <= last;
      Monotone(rowHeight, first + 1, row + 1);
      Monotone(rowHeight, row, last);
    }

    /** `scrolled`, for the rows. */
    method Scrolled()
      requires rowHeight > 0 && nRows > 0 && scroll >= 0
      modifies `topRow, `topRowY, `bottomRow
      ensures Drawn()
    {
      var row := scroll / rowHeight;
      var top := if row >= nRows then nRows - 1 else row;
      top := if top < 0 then 0 else top;
      var y := top * rowHeight;
      RoundedDown(scroll, rowHeight);
      Monotone(rowHeight, top, row);
      if top > 0 && y > scroll {
        top := top - 1;
        y := y - rowHeight;
      }
      topRow, topRowY := top, y;
      row := (scroll + iH) / rowHeight;
      bottomRow := if row >= nRows then nRows - 1 else row;
    }

    /** `scrollTo`. If no row is out of the window, nothing is scrolled. */
    method ScrollTo(pos: int)
      requires rowHeight > 0
      modifies `scroll, `topRow, `topRowY, `bottomRow
      ensures scroll == old(Position(pos))
      ensures if Overflows() then Inside() && Drawn() else unchanged(`topRow, `topRowY, `bottomRow)
    {
      var p := pos;
      if nRows > iH / rowHeight {
        OverflowIsPositive(rowHeight, nRows, iH);
        var max := rowHeight * nRows - iH;
        if p < 0 || max < 0 { p := 0; }
        if p > max { p := max; }
        scroll := p;
        Scrolled();
      }
    }

    /** How a key leaves the table: the row `row` is selected and the table scrolled to `pos`. */
    twostate predicate Moved(row: int, pos: int)
      requires rowHeight > 0
      reads this
    {
      && selected == row && scroll == old(Position(pos))
      && if Overflows() then Inside() && Drawn() else unchanged(`topRow, `topRowY, `bottomRow)
    }

    method FirstRow()
      requires rowHeight > 0
      modifies `selected, `scroll, `topRow, `topRowY, `bottomRow
      ensures if nRows == 0 || old(selected) == 0 then unchanged(this) else Moved(0, 0)
      ensures old(Shown()) ==> Shown()
    {
      if nRows == 0 || selected == 0 { return; }
      selected := 0;
      ScrollTo(0);
      RowFits(rowHeight, nRows, selected);
    }

    method PrevPage()
      requires rowHeight > 0
      modifies `selected, `scroll, `topRow, `topRowY, `bottomRow
      ensures if old(selected) <= 0 then unchanged(this)
              else var row := if old(selected) >= iH / rowHeight then old(selected) - iH / rowHeight else 0;
                Moved(row, rowHeight * row)
      ensures old(Shown()) ==> Shown()
    {
      if selected > 0 {
        var step := iH / rowHeight;
        if selected >= step { selected := selected - step; } else { selected := 0; }
        Commutes(selected, rowHeight);
        if selected < nRows { RowFits(rowHeight, nRows, selected); }
        ScrollTo(selected * rowHeight);
      }
    }

    /** Moves up one row, and scrolls only if the row is above the window. */
    method PrevRow()
      requires rowHeight > 0
      modifies `selected, `scroll, `topRow, `topRowY, `bottomRow
      ensures if nRows == 0 then unchanged(this)
              else var row := if old(selected) > 0 then old(selected) - 1 else 0;
                Moved(row, if rowHeight * row > old(scroll) then old(scroll) else rowHeight * row)
      ensures old(Shown()) ==> Shown()
    {
      if nRows == 0 { return; }
      selected := if selected > 0 then selected - 1 else 0;
      var oldpos := scroll;
      var newpos := rowHeight * selected;
      if selected < nRows { RowFits(rowHeight, nRows, selected); }
      NextRowBelow(rowHeight, selected);
      if newpos - oldpos > 0 { ScrollTo(oldpos); } else { ScrollTo(newpos); }
    }

    /** Moves down one row, and scrolls only if the row is below the window. */
    method NextRow()
      requires rowHeight > 0
      modifies `selected, `scroll, `topRow, `topRowY, `bottomRow
      ensures if nRows == 0 || old(selected) == nRows - 1 then unchanged(this)
              else var row := if old(selected) < nRows - 1 then old(selected) + 1 else nRows - 1;
                var newpos := rowHeight * (row + 1) - iH;
                Moved(row, if newpos < old(scroll) then old(scroll) else newpos)
      ensures old(Shown()) ==> Shown()
    {
      if nRows == 0 || selected == nRows - 1 { return; }
      var lastrow := nRows - 1;
      selected := if selected < lastrow then selected + 1 else lastrow;
      var oldpos := scroll;
      var newpos := rowHeight * (selected + 1) - iH;
      if selected >= 0 { RowFits(rowHeight, nRows, selected); }
      NextRowBelow(rowHeight, selected - 1);
      NextRowBelow(rowHeight, selected);
      if newpos - oldpos < 0 { ScrollTo(oldpos); } else { ScrollTo(newpos); }
    }

    method NextPage()
      requires rowHeight > 0
      modifies `selected, `scroll, `topRow, `topRowY, `bottomRow
      ensures if 0 <= old(selected) < nRows - 1
              then var row := if old(selected) + iH / rowHeight >= nRows then nRows - 1 else old(selected) + iH / rowHeight;
                Moved(row, rowHeight * (row + 1) - iH)
              else unchanged(this)
      ensures old(Shown()) ==> Shown()
    {
      if selected >= 0 && selected < nRows - 1 {
        var step := iH / rowHeight;
        selected := selected + step;
        if selected >= nRows { selected := nRows - 1; }
        ToBottom();
      }
    }

    method LastRow()
      requires rowHeight > 0
      modifies `selected, `scroll, `topRow, `topRowY, `bottomRow
      ensures if nRows == 0 then unchanged(this) else Moved(nRows - 1, rowHeight * nRows - iH)
      ensures old(Shown()) ==> Shown()
    {
      if nRows == 0 { return; }
      selected := nRows - 1;
      ToBottom();
    }

    method GotoRow(n: int)
      requires rowHeight > 0
      modifies `selected, `scroll, `topRow, `topRowY, `bottomRow
      ensures if 0 <= n < nRows then Moved(n, rowHeight * (n + 1) - iH) else unchanged(this)
      ensures old(Shown()) ==> Shown()
    {
      if n >= 0 && n < nRows {
        selected := n;
        ToBottom();
      }
    }

    /** Scrolls until the selected row is the last one in the window. */
    method ToBottom()
      requires rowHeight > 0 && 0 <= selected < nRows
      modifies `scroll, `topRow, `topRowY, `bottomRow
      ensures scroll == old(Position(rowHeight * (selected + 1) - iH))
      ensures if Overflows() then Inside() && Drawn() else unchanged(`topRow, `topRowY, `bottomRow)
      ensures rowHeight <= iH && Overflows() ==> Shown()
    {
      RowFits(rowHeight, nRows, selected);
      NextRowBelow(rowHeight, selected);
      ScrollTo(rowHeight * (selected + 1) - iH);
    }
  }

  // ---- Arithmetic ----

  lemma RoundedDown(n: int, h: nat)
    requires n >= 0 && h > 0
    ensures n / h * h <= n < (n / h + 1) * h
  {
  }

  lemma InsideRow(n: int, h: nat, rows: nat)
    requires 0 <= n < h * rows && h > 0
    ensures n / h < rows
  {
    RoundedDown(n, h);
    if n / h >= rows { Monotone(h, rows, n / h); }
  }

  /** More rows than fit means that the table is higher than the window. */
  lemma OverflowIsPositive(h: nat, n: nat, iH: nat)
    requires h > 0 && n > iH / h
    ensures h * n - iH > 0
  {
    RoundedDown(iH, h);
    Monotone(h, iH / h + 1, n);
  }

  lemma Monotone(h: nat, a: int, b: int)
    requires a <= b
    ensures h * a <= h * b
  {
    assert h * b - h * a == h * (b - a);
  }

  lemma Commutes(a: int, b: int)
    ensures a * b == b * a
  {
  }

  lemma RowFits(h: nat, n: nat, row: int)
    requires 0 <= row < n
    ensures 0 <= h * row && h * (row + 1) <= h * n && h * (row + 1) == h * row + h
  {
    Monotone(h, 0, row);
    Monotone(h, row + 1, n);
  }

  lemma NextRowBelow(h: nat, row: int)
    ensures h * (row + 1) == h * row + h && h * (row + 2) == h * row + 2 * h
  {
  }
}
