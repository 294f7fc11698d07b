/**
 * Where the values of each visited point go in the flat state vector: a
 * traversal is a list of moves (point, offset), point after point, each point
 * taking up w consecutive entries. The loops of the solver interface build
 * this list run by run; the lemmas here show it is the visiting order of
 * Traversal with the offsets 0, w, 2 * w, ...
 */
module Placement {
  import opened Traversal

  /** A point and the buffer offset of its first value. */
  type Move = (Point, nat)

  /** The number of buffer entries n points of width w take up: n * w, added up one point at a time. */
  function Span(n: nat, w: nat): nat
  {
    if n == 0 then 0 else Span(n - 1, w) + w
  }

  lemma {:induction false} SpanAdd(a: nat, b: nat, w: nat)
    ensures Span(a + b, w) == Span(a, w) + Span(b, w)
    decreases b
  {
    if b > 0 {
      SpanAdd(a, b - 1, w);
    }
  }

  lemma {:induction false} SpanMono(a: nat, b: nat, w: nat)
    requires a <= b
    ensures Span(a, w) <= Span(b, w)
    decreases b
  {
    if a < b {
      SpanMono(a, b - 1, w);
    }
  }

  lemma {:induction false} SpanIsProduct(n: nat, w: nat)
    ensures Span(n, w) == n * w
  {
    if n > 0 {
      SpanIsProduct(n - 1, w);
      assert n * w == (n - 1) * w + w;
    }
  }

  /** The points pts placed one after the other from offset p, w entries each. */
  function Placed(pts: seq<Point>, p: nat, w: nat): (r: seq<Move>)
    ensures |r| == |pts|
    decreases |pts|
  {
    if |pts| == 0 then [] else [(pts[0], p)] + Placed(pts[1..], p + w, w)
  }

  /** Point k of pts goes to offset p + k * w. */
  lemma {:induction false} PlacedAt(pts: seq<Point>, p: nat, w: nat, k: nat)
    requires k < |pts|
    ensures Placed(pts, p, w)[k] == (pts[k], p + Span(k, w))
    decreases k
  {
    if k > 0 {
      PlacedAt(pts[1..], p + w, w, k - 1);
      SpanAdd(1, k - 1, w);
    }
  }

  /** Placing a + b is placing a, then placing b right after it. */
  lemma {:induction false} PlacedConcat(a: seq<Point>, b: seq<Point>, p: nat, w: nat)
    ensures Placed(a + b, p, w) == Placed(a, p, w) + Placed(b, p + Span(|a|, w), w)
    decreases |a|
  {
    if |a| == 0 {
      assert a + b == b;
    } else {
      assert (a + b)[1..] == a[1..] + b;
      PlacedConcat(a[1..], b, p + w, w);
      SpanAdd(1, |a| - 1, w);
    }
  }

  // ---------------------------------------------------------------------
  // The moves of the loops of loop_vars
  // ---------------------------------------------------------------------

  /** The innermost loop: (jx, y0), ..., (jx, y0 + n - 1) from offset p. */
  function RunMoves(jx: int, y0: int, n: nat, p: nat, w: nat): (r: seq<Move>)
    ensures |r| == n
  {
    if n == 0 then [] else RunMoves(jx, y0, n - 1, p, w) + [((jx, y0 + n - 1), p + Span(n - 1, w))]
  }

  /** A run of a + b rows is a run of a rows followed by a run of b rows. */
  lemma {:induction false} RunMovesSplit(jx: int, y0: int, a: nat, b: nat, p: nat, w: nat)
    ensures RunMoves(jx, y0, a + b, p, w) == RunMoves(jx, y0, a, p, w) + RunMoves(jx, y0 + a, b, p + Span(a, w), w)
    decreases b
  {
    if b > 0 {
      RunMovesSplit(jx, y0, a, b - 1, p, w);
      SpanAdd(a, b - 1, w);
    }
  }

  /** The rows of column jx taken up by its lower y ghosts: MYG when they are evolved, none otherwise. */
  function LowerRows(d: Domain, jx: int): nat
  {
    if d.LowerY(jx) then d.MYG else 0
  }

  /** The rows of column jx taken up by its upper y ghosts. */
  function UpperRows(d: Domain, jx: int): nat
  {
    if d.UpperY(jx) then d.MYG else 0
  }

  /** n = a + b + c points take up the entries of a points, then b, then c. */
  lemma {:induction false} SpanSplit3(a: nat, b: nat, c: nat, n: nat, w: nat)
    requires n == a + b + c
    ensures Span(n, w) == Span(a, w) + Span(b, w) + Span(c, w)
  {
    SpanAdd(a, b, w);
    SpanAdd(a + b, c, w);
  }

  /** A run of n = a + b + c rows is three runs, from rows y0, y1 = y0 + a and y2 = y1 + b. */
  lemma {:induction false} RunMovesSplit3(jx: int, y0: int, y1: int, y2: int, a: nat, b: nat, c: nat, n: nat, p: nat, q1: nat, q2: nat, w: nat)
    requires n == a + b + c && y1 == y0 + a && y2 == y1 + b
    requires q1 == p + Span(a, w) && q2 == q1 + Span(b, w)
    ensures RunMoves(jx, y0, n, p, w) == RunMoves(jx, y0, a, p, w) + RunMoves(jx, y1, b, q1, w) + RunMoves(jx, y2, c, q2, w)
  {
    RunMovesSplit(jx, y0, a, b, p, w);
    SpanAdd(a, b, w);
    RunMovesSplit(jx, y0, a + b, c, p, w);
  }

  /**
   * The evolved rows of interior column jx are its lower ghosts, its MYSUB
   * interior rows from MYG, and its upper ghosts from MYSUB + MYG, one after the other.
   */
  lemma {:induction false} ColumnMovesParts(d: Domain, jx: int, p: nat, w: nat)
    ensures ColumnHeight(d, jx) == LowerRows(d, jx) + d.MYSUB + UpperRows(d, jx)
    ensures Span(ColumnHeight(d, jx), w) == Span(LowerRows(d, jx), w) + Span(d.MYSUB, w) + Span(UpperRows(d, jx), w)
    ensures RunMoves(jx, ColumnStart(d, jx), ColumnHeight(d, jx), p, w)
         == RunMoves(jx, ColumnStart(d, jx), LowerRows(d, jx), p, w)
          + RunMoves(jx, d.MYG, d.MYSUB, p + Span(LowerRows(d, jx), w), w)
          + RunMoves(jx, d.MYSUB + d.MYG, UpperRows(d, jx), p + Span(LowerRows(d, jx), w) + Span(d.MYSUB, w), w)
  {
    var lo, up := LowerRows(d, jx), UpperRows(d, jx);
    SpanSplit3(lo, d.MYSUB, up, ColumnHeight(d, jx), w);
    RunMovesSplit3(jx, ColumnStart(d, jx), d.MYG, d.MYSUB + d.MYG, lo, d.MYSUB, up, ColumnHeight(d, jx),
                   p, p + Span(lo, w), p + Span(lo, w) + Span(d.MYSUB, w), w);
  }

  /** The entries interior column jx takes up: its lower ghosts if evolved, its MYSUB interior rows, its upper ghosts if evolved. */
  lemma {:induction false} ColumnSpans(d: Domain, jx: int, w: nat)
    ensures Span(ColumnHeight(d, jx), w)
         == (if d.LowerY(jx) then Span(d.MYG, w) else 0) + Span(d.MYSUB, w) + (if d.UpperY(jx) then Span(d.MYG, w) else 0)
  {
    ColumnMovesParts(d, jx, 0, w);
  }

  /** The x ghost loops: runs of ny rows from y0 in columns x0 .. x0 + nx - 1. */
  function BlockMoves(x0: int, nx: nat, y0: int, ny: nat, p: nat, w: nat): seq<Move>
  {
    if nx == 0 then []
    else BlockMoves(x0, nx - 1, y0, ny, p, w) + RunMoves(x0 + nx - 1, y0, ny, p + Span(nx - 1, Span(ny, w)), w)
  }

  /** The loop over interior columns: the evolved rows of jx = MXG .. MXG + k - 1, bottom to top. */
  function ColumnsMoves(d: Domain, k: nat, p: nat, w: nat): seq<Move>
  {
    if k == 0 then []
    else
      var jx := d.MXG + k - 1;
      ColumnsMoves(d, k - 1, p, w) + RunMoves(jx, ColumnStart(d, jx), ColumnHeight(d, jx), p + Span(ColumnsSize(d, k - 1), w), w)
  }

  // The step lemmas below state each loop's next iteration in exactly the
  // terms the loop uses, so that no arithmetic is needed to match them.

  /** One more row of a run: the move of (jx, y0 + k) at p + k * w. */
  lemma {:induction false} RunMovesNext(jx: int, y0: int, k: nat, p: nat, w: nat)
    ensures RunMoves(jx, y0, k + 1, p, w) == RunMoves(jx, y0, k, p, w) + [((jx, y0 + k), p + Span(k, w))]
  {
  }

  /** Row k of a run of n ends within the run. */
  lemma {:induction false} RunSpanNext(k: nat, n: nat, w: nat)
    requires k < n
    ensures Span(k + 1, w) == Span(k, w) + w && Span(k + 1, w) <= Span(n, w)
  {
    SpanMono(k + 1, n, w);
  }

  /** One more column of a block: the run of column x0 + k after k runs of ny points. */
  lemma {:induction false} BlockMovesNext(x0: int, k: nat, y0: int, ny: nat, p: nat, w: nat)
    ensures BlockMoves(x0, k + 1, y0, ny, p, w) == BlockMoves(x0, k, y0, ny, p, w) + RunMoves(x0 + k, y0, ny, p + Span(k, Span(ny, w)), w)
  {
  }

  /** One more interior column: column jx = MXG + k after the first k columns. */
  lemma {:induction false} ColumnsMovesNext(d: Domain, k: nat, jx: int, p: nat, w: nat)
    requires jx == d.MXG + k
    ensures ColumnsMoves(d, k + 1, p, w)
         == ColumnsMoves(d, k, p, w) + RunMoves(jx, ColumnStart(d, jx), ColumnHeight(d, jx), p + Span(ColumnsSize(d, k), w), w)
  {
  }

  /** Interior column jx = MXG + k ends within the interior columns. */
  lemma {:induction false} ColumnsSpanNext(d: Domain, k: nat, jx: int, w: nat)
    requires k < d.MXSUB && jx == d.MXG + k
    ensures Span(ColumnsSize(d, k + 1), w) == Span(ColumnsSize(d, k), w) + Span(ColumnHeight(d, jx), w)
    ensures Span(ColumnsSize(d, k + 1), w) <= Span(ColumnsSize(d, d.MXSUB), w)
  {
    SpanAdd(ColumnsSize(d, k), ColumnHeight(d, jx), w);
    ColumnsSizeMono(d, k + 1, d.MXSUB);
    SpanMono(ColumnsSize(d, k + 1), ColumnsSize(d, d.MXSUB), w);
  }

  /** The entries taken up by the inner x ghosts: a block of MXG runs of MYSUB points, or nothing. */
  function InnerSpan(d: Domain, w: nat): nat
  {
    if d.IDATA_DEST == -1 then Span(d.MXG, Span(d.MYSUB, w)) else 0
  }

  /** The entries taken up by the outer x ghosts. */
  function OuterSpan(d: Domain, w: nat): nat
  {
    if d.ODATA_DEST == -1 then Span(d.MXG, Span(d.MYSUB, w)) else 0
  }

  /** The entries the whole traversal of d takes up. */
  function Extent(d: Domain, w: nat): nat
  {
    InnerSpan(d, w) + Span(ColumnsSize(d, d.MXSUB), w) + OuterSpan(d, w)
  }

  /** The inner x ghost loop, when it runs. */
  function InnerMoves(d: Domain, w: nat): seq<Move>
  {
    if d.IDATA_DEST == -1 then BlockMoves(0, d.MXG, d.MYG, d.MYSUB, 0, w) else []
  }

  /** The outer x ghost loop from offset p, when it runs. */
  function OuterMoves(d: Domain, p: nat, w: nat): seq<Move>
  {
    if d.ODATA_DEST == -1 then BlockMoves(d.MXG + d.MXSUB, d.MXG, d.MYG, d.MYSUB, p, w) else []
  }

  /** All of loop_vars: the inner x ghosts, the interior columns, the outer x ghosts. */
  function AllMoves(d: Domain, w: nat): seq<Move>
  {
    InnerMoves(d, w)
    + ColumnsMoves(d, d.MXSUB, InnerSpan(d, w), w)
    + OuterMoves(d, InnerSpan(d, w) + Span(ColumnsSize(d, d.MXSUB), w), w)
  }

  // ---------------------------------------------------------------------
  // The loops place exactly the points of the visiting order
  // ---------------------------------------------------------------------

  lemma {:induction false} RunMovesIs(jx: int, y0: int, n: nat, p: nat, w: nat)
    ensures RunMoves(jx, y0, n, p, w) == Placed(Run(jx, y0, n), p, w)
  {
    if n > 0 {
      RunMovesIs(jx, y0, n - 1, p, w);
      RunConcat(jx, y0, n - 1, 1);
      assert Run(jx, y0 + (n - 1), 1) == [(jx, y0 + n - 1)];
      PlacedConcat(Run(jx, y0, n - 1), [(jx, y0 + n - 1)], p, w);
    }
  }

  /** A block of nx columns of ny rows takes up nx runs of ny points. */
  lemma {:induction false} BlockSpan(x0: int, nx: nat, y0: int, ny: nat, w: nat)
    ensures Span(|Block(x0, nx, y0, ny)|, w) == Span(nx, Span(ny, w))
  {
    if nx > 0 {
      BlockSpan(x0, nx - 1, y0, ny, w);
      SpanAdd(|Block(x0, nx - 1, y0, ny)|, ny, w);
    }
  }

  lemma {:induction false} BlockMovesIs(x0: int, nx: nat, y0: int, ny: nat, p: nat, w: nat)
    ensures BlockMoves(x0, nx, y0, ny, p, w) == Placed(Block(x0, nx, y0, ny), p, w)
  {
    if nx > 0 {
      BlockMovesIs(x0, nx - 1, y0, ny, p, w);
      BlockSpan(x0, nx - 1, y0, ny, w);
      PlacedConcat(Block(x0, nx - 1, y0, ny), Run(x0 + nx - 1, y0, ny), p, w);
      RunMovesIs(x0 + nx - 1, y0, ny, p + Span(nx - 1, Span(ny, w)), w);
    }
  }

  lemma {:induction false} ColumnsMovesIs(d: Domain, k: nat, p: nat, w: nat)
    ensures ColumnsMoves(d, k, p, w) == Placed(Columns(d, k), p, w)
  {
    if k > 0 {
      var jx := d.MXG + k - 1;
      ColumnsMovesIs(d, k - 1, p, w);
      ColumnsLength(d, k - 1);
      PlacedConcat(Columns(d, k - 1), Column(d, jx), p, w);
      RunMovesIs(jx, ColumnStart(d, jx), ColumnHeight(d, jx), p + Span(ColumnsSize(d, k - 1), w), w);
    }
  }

  /** The traversal takes up |Points(d)| * w entries. */
  lemma {:induction false} ExtentIs(d: Domain, w: nat)
    ensures Extent(d, w) == |Points(d)| * w
  {
    var inner, cols, outer := InnerX(d), Columns(d, d.MXSUB), OuterX(d);
    assert |Points(d)| == |inner| + |cols| + |outer|;
    BlockSpan(0, d.MXG, d.MYG, d.MYSUB, w);
    BlockSpan(d.MXG + d.MXSUB, d.MXG, d.MYG, d.MYSUB, w);
    ColumnsLength(d, d.MXSUB);
    SpanAdd(|inner|, |cols|, w);
    SpanAdd(|inner| + |cols|, |outer|, w);
    SpanIsProduct(|Points(d)|, w);
  }

  lemma {:induction false} InnerMovesIs(d: Domain, w: nat)
    ensures Span(|InnerX(d)|, w) == InnerSpan(d, w)
    ensures InnerMoves(d, w) == Placed(InnerX(d), 0, w)
  {
    BlockSpan(0, d.MXG, d.MYG, d.MYSUB, w);
    BlockMovesIs(0, d.MXG, d.MYG, d.MYSUB, 0, w);
  }

  lemma {:induction false} OuterMovesIs(d: Domain, p: nat, w: nat)
    ensures Span(|OuterX(d)|, w) == OuterSpan(d, w)
    ensures OuterMoves(d, p, w) == Placed(OuterX(d), p, w)
  {
    BlockSpan(d.MXG + d.MXSUB, d.MXG, d.MYG, d.MYSUB, w);
    BlockMovesIs(d.MXG + d.MXSUB, d.MXG, d.MYG, d.MYSUB, p, w);
  }

  /** Placing a + b + c is placing a, then b right after it, then c right after b. */
  lemma {:induction false} PlacedConcat3(a: seq<Point>, b: seq<Point>, c: seq<Point>, p: nat, w: nat)
    ensures Placed(a + b + c, p, w) == Placed(a, p, w) + Placed(b, p + Span(|a|, w), w) + Placed(c, p + Span(|a|, w) + Span(|b|, w), w)
  {
    PlacedConcat(a + b, c, p, w);
    PlacedConcat(a, b, p, w);
    SpanAdd(|a|, |b|, w);
  }

  /** The loops of loop_vars place the points of Points(d), in order, from offset 0. */
  lemma {:induction false} AllMovesIs(d: Domain, w: nat)
    ensures AllMoves(d, w) == Placed(Points(d), 0, w)
  {
    var inner, cols, outer := InnerX(d), Columns(d, d.MXSUB), OuterX(d);
    InnerMovesIs(d, w);
    ColumnsLength(d, d.MXSUB);
    PlacedConcat3(inner, cols, outer, 0, w);
    ColumnsMovesIs(d, d.MXSUB, InnerSpan(d, w), w);
    OuterMovesIs(d, InnerSpan(d, w) + Span(ColumnsSize(d, d.MXSUB), w), w);
  }
}
