/**
 * `front/src/helpers/virtual.ts`: which rows of a long list are mounted.
 *
 * Heights and positions are reals.  Whatever the scroll position and the
 * viewport, every row in sight is mounted, and not many more.
 */
module Rows {

  datatype RowWindow = RowWindow(start: int, end: int, offset: real, total: real)

  const OVERSCAN := 8

  function Max(a: int, b: int): int { if a < b then b else a }
  function Min(a: int, b: int): int { if a < b then a else b }
  function AtLeast0(x: real): real { if x < 0.0 then 0.0 else x }

  /** `Math.ceil` */
  function Ceil(x: real): int { -((-x).Floor) }

  /** The row at the top of the viewport. */
  function First(rowHeight: real, scrollTop: real): int
    requires rowHeight > 0.0
  {
    (AtLeast0(scrollTop) / rowHeight).Floor
  }

  function Visible(rowHeight: real, viewport: real): int
    requires rowHeight > 0.0
  {
    Ceil(AtLeast0(viewport) / rowHeight) + 1
  }

  function WindowOf(count: int, rowHeight: real, scrollTop: real, viewport: real, overscan: int): RowWindow {
    if count <= 0 || rowHeight <= 0.0 then RowWindow(0, 0, 0.0, Max(0, count) as real * rowHeight)
    else
      var first := First(rowHeight, scrollTop);
      var start := Max(0, Min(count - 1, first - overscan));
      var end := Max(start, Min(count, first + Visible(rowHeight, viewport) + overscan));
      RowWindow(start, end, start as real * rowHeight, count as real * rowHeight)
  }

  /** `n` whole rows reach the position exactly when `n` is no more than the quotient's floor. */
  lemma FloorOfQuotient(x: real, h: real, n: int)
    requires h > 0.0
    ensures n as real * h <= x <==> n <= (x / h).Floor
  {
    var q := x / h;
    assert q * h == x;
    Scale(n as real, q, h);
    assert n as real <= q <==> n <= q.Floor;
  }

  lemma Scale(a: real, b: real, h: real)
    requires h > 0.0
    ensures a * h <= b * h <==> a <= b
  {
    assert (b - a) * h == b * h - a * h;
    if a <= b { Product(b - a, h); } else { Product(a - b, h); assert (a - b) * h == a * h - b * h; }
  }

  lemma Product(a: real, h: real)
    requires h > 0.0 && a >= 0.0
    ensures a * h >= 0.0 && (a > 0.0 ==> a * h > 0.0)
  {
  }

  /** A viewport is no taller than its quotient's ceiling of rows. */
  lemma CeilOfQuotient(v: real, h: real)
    requires h > 0.0
    ensures v <= Ceil(v / h) as real * h
  {
    var q := v / h;
    assert q * h == v;
    assert q <= Ceil(q) as real;
    Scale(q, Ceil(q) as real, h);
  }

  /** The window lies in the list, and is never empty while there is a row to show. */
  lemma WindowInBounds(count: int, rowHeight: real, scrollTop: real, viewport: real, overscan: int)
    requires overscan >= 0
    ensures var w := WindowOf(count, rowHeight, scrollTop, viewport, overscan);
            && 0 <= w.start <= w.end <= Max(0, count)
            && (count > 0 && rowHeight > 0.0 ==> w.start < w.end)
  {
    if count > 0 && rowHeight > 0.0 {
      FirstIsNatural(rowHeight, scrollTop);
      VisibleIsPositive(rowHeight, viewport);
    }
  }

  lemma FirstIsNatural(rowHeight: real, scrollTop: real)
    requires rowHeight > 0.0
    ensures First(rowHeight, scrollTop) >= 0
  {
    FloorOfQuotient(AtLeast0(scrollTop), rowHeight, 0);
  }

  lemma VisibleIsPositive(rowHeight: real, viewport: real)
    requires rowHeight > 0.0
    ensures Visible(rowHeight, viewport) >= 1
  {
    var v := AtLeast0(viewport);
    CeilOfQuotient(v, rowHeight);
    var c := Ceil(v / rowHeight);
    if c < 0 {
      Product(-(c as real), rowHeight);
      assert -(c as real) * rowHeight == -(c as real * rowHeight);
    }
  }

  /** Some part of row `i` is between the viewport's top and its bottom. */
  predicate InSight(rowHeight: real, scrollTop: real, viewport: real, i: int) {
    (i + 1) as real * rowHeight > scrollTop && i as real * rowHeight < scrollTop + viewport
  }

  /** Every row in sight is mounted: for any height, any position, even past either end, and any viewport. */
  lemma WindowShowsEverythingInSight(count: int, rowHeight: real, scrollTop: real, viewport: real,
                                     overscan: int, i: int)
    requires overscan >= 0 && rowHeight > 0.0 && 0 <= i < count
    requires InSight(rowHeight, scrollTop, viewport, i)
    ensures var w := WindowOf(count, rowHeight, scrollTop, viewport, overscan); w.start <= i < w.end
  {
    FirstIsNatural(rowHeight, scrollTop);
    NotAbove(rowHeight, scrollTop, i);
    NotBelow(rowHeight, scrollTop, viewport, i);
  }

  lemma NotAbove(rowHeight: real, scrollTop: real, i: int)
    requires rowHeight > 0.0 && i >= 0 && (i + 1) as real * rowHeight > scrollTop
    ensures First(rowHeight, scrollTop) <= i
  {
    Product((i + 1) as real, rowHeight);
    FloorOfQuotient(AtLeast0(scrollTop), rowHeight, i + 1);
  }

  lemma NotBelow(rowHeight: real, scrollTop: real, viewport: real, i: int)
    requires rowHeight > 0.0 && i as real * rowHeight < scrollTop + viewport
    ensures i < First(rowHeight, scrollTop) + Visible(rowHeight, viewport)
  {
    var s, v := AtLeast0(scrollTop), AtLeast0(viewport);
    var first, rows := First(rowHeight, scrollTop), Ceil(v / rowHeight);
    FloorOfQuotient(s, rowHeight, first + 1);
    CeilOfQuotient(v, rowHeight);
    StackedRows(s, v, rowHeight, first + 1, rows, i);
  }

  /** Rows that reach past two stretches laid end to end are past both counts together. */
  lemma StackedRows(s: real, v: real, h: real, a: int, b: int, i: int)
    requires h > 0.0 && s < a as real * h && v <= b as real * h && i as real * h < s + v
    ensures i < a + b
  {
    var sum := (a + b) as real;
    assert sum == a as real + b as real;
    assert sum * h == a as real * h + b as real * h;
    Scale(sum, i as real, h);
  }

  /** No more is mounted than the viewport's rows, one for a ragged edge, and the overscan on both sides. */
  lemma WindowIsSmall(count: int, rowHeight: real, scrollTop: real, viewport: real, overscan: int)
    requires overscan >= 0 && rowHeight > 0.0
    ensures var w := WindowOf(count, rowHeight, scrollTop, viewport, overscan);
            w.end - w.start <= Ceil(AtLeast0(viewport) / rowHeight) + 1 + 2 * overscan
  {
    VisibleIsPositive(rowHeight, viewport);
  }

  /** Two positions inside one row ask for the same window. */
  lemma SameInsideARow(count: int, rowHeight: real, a: real, b: real, viewport: real, overscan: int, row: nat)
    requires rowHeight > 0.0
    requires row as real * rowHeight <= a < (row + 1) as real * rowHeight
    requires row as real * rowHeight <= b < (row + 1) as real * rowHeight
    ensures WindowOf(count, rowHeight, a, viewport, overscan) == WindowOf(count, rowHeight, b, viewport, overscan)
  {
    FirstInside(rowHeight, a, row);
    FirstInside(rowHeight, b, row);
  }

  lemma FirstInside(rowHeight: real, a: real, row: nat)
    requires rowHeight > 0.0 && row as real * rowHeight <= a < (row + 1) as real * rowHeight
    ensures First(rowHeight, a) == row
  {
    Product(row as real, rowHeight);
    FloorOfQuotient(a, rowHeight, row);
    FloorOfQuotient(a, rowHeight, row + 1);
  }

  /**
   * When a pane mounts seventeen rows or more.  The source says always; it is
   * so once eight rows are above, and otherwise only while the rows above and
   * in sight make up for the missing overscan, and the list is long enough.
   */
  lemma WhenSeventeenAreMounted(count: int, rowHeight: real, scrollTop: real, viewport: real)
    requires rowHeight > 0.0
    ensures var w := WindowOf(count, rowHeight, scrollTop, viewport, OVERSCAN);
            w.end - w.start >= 17
            <==> count - Max(0, First(rowHeight, scrollTop) - OVERSCAN) >= 17
                 && (First(rowHeight, scrollTop) >= OVERSCAN
                     || First(rowHeight, scrollTop) + Visible(rowHeight, viewport) >= 9)
  {
    FirstIsNatural(rowHeight, scrollTop);
    VisibleIsPositive(rowHeight, viewport);
  }

  /** A one-row viewport at the top of a long list mounts ten. */
  lemma TenAtTheTop(count: int, rowHeight: real)
    requires rowHeight > 0.0 && count >= 17
    ensures var w := WindowOf(count, rowHeight, 0.0, rowHeight, OVERSCAN); w.start == 0 && w.end == 10
  {
    assert rowHeight / rowHeight == 1.0;
    assert 0.0 / rowHeight == 0.0;
  }
}
