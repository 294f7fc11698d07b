/**
 * The order in which the solver interface visits the (jx, jy) points of the
 * local subdomain when it copies evolving variables to or from the flat state
 * vector: the inner-x ghost rows, then column by column the lower-y ghosts, the
 * interior and the upper-y ghosts, then the outer-x ghost rows. A ghost region
 * is visited only when the neighbour on that side is -1, i.e. the subdomain
 * touches the physical boundary there and its boundary cells are evolved.
 */
module Traversal {

  type Point = (int, int)

  /** The local subdomain and its neighbours. */
  datatype Domain = Domain(MXG: nat, MYG: nat, MXSUB: nat, MYSUB: nat,
                           IDATA_DEST: int, ODATA_DEST: int,
                           DDATA_INDEST: int, DDATA_OUTDEST: int, DDATA_XSPLIT: int,
                           UDATA_INDEST: int, UDATA_OUTDEST: int, UDATA_XSPLIT: int,
                           ncz: nat)
  {
    /** Points in x including both ghost regions. */
    function NGX(): nat { MXSUB + 2 * MXG }

    /** Points in y including both ghost regions. */
    function NGY(): nat { MYSUB + 2 * MYG }

    predicate InGrid(p: Point)
    {
      0 <= p.0 < NGX() && 0 <= p.1 < NGY()
    }

    /** Column jx evolves its lower-y ghost rows. */
    predicate LowerY(jx: int)
    {
      (DDATA_INDEST == -1 && jx < DDATA_XSPLIT) || (DDATA_OUTDEST == -1 && jx >= DDATA_XSPLIT)
    }

    /** Column jx evolves its upper-y ghost rows. */
    predicate UpperY(jx: int)
    {
      (UDATA_INDEST == -1 && jx < UDATA_XSPLIT) || (UDATA_OUTDEST == -1 && jx >= UDATA_XSPLIT)
    }

    /** The rows of an interior column jx that are evolved. */
    predicate ColumnRow(jx: int, jy: int)
    {
      (MYG <= jy < MYG + MYSUB)
      || (LowerY(jx) && 0 <= jy < MYG)
      || (UpperY(jx) && MYG + MYSUB <= jy < MYSUB + 2 * MYG)
    }

    /** Reference definition of the evolved points, region by region. */
    predicate Visited(p: Point)
    {
      (IDATA_DEST == -1 && 0 <= p.0 < MXG && MYG <= p.1 < MYG + MYSUB)
      || (MXG <= p.0 < MXG + MXSUB && ColumnRow(p.0, p.1))
      || (ODATA_DEST == -1 && MXG + MXSUB <= p.0 < 2 * MXG + MXSUB && MYG <= p.1 < MYG + MYSUB)
    }
  }

  /** (jx, y0), (jx, y0 + 1), ..., (jx, y0 + n - 1). */
  function Run(jx: int, y0: int, n: nat): seq<Point>
  {
    seq(n, k => (jx, y0 + k))
  }

  /** Runs y0 .. y0 + ny - 1 of columns x0 .. x0 + nx - 1, column after column. */
  function Block(x0: int, nx: nat, y0: int, ny: nat): seq<Point>
  {
    if nx == 0 then [] else Block(x0, nx - 1, y0, ny) + Run(x0 + nx - 1, y0, ny)
  }

  /** Inner-x ghost rows, visited when there is no inner x neighbour. */
  function InnerX(d: Domain): seq<Point>
  {
    if d.IDATA_DEST == -1 then Block(0, d.MXG, d.MYG, d.MYSUB) else []
  }

  /** Outer-x ghost rows, visited when there is no outer x neighbour. */
  function OuterX(d: Domain): seq<Point>
  {
    if d.ODATA_DEST == -1 then Block(d.MXG + d.MXSUB, d.MXG, d.MYG, d.MYSUB) else []
  }

  function LowerGhosts(d: Domain, jx: int): seq<Point>
  {
    if d.LowerY(jx) then Run(jx, 0, d.MYG) else []
  }

  function UpperGhosts(d: Domain, jx: int): seq<Point>
  {
    if d.UpperY(jx) then Run(jx, d.MYSUB + d.MYG, d.MYG) else []
  }

  /** The first evolved row of interior column jx: 0 when its lower ghosts are evolved, MYG otherwise. */
  function ColumnStart(d: Domain, jx: int): nat
  {
    if d.LowerY(jx) then 0 else d.MYG
  }

  /** The number of evolved rows of interior column jx. */
  function ColumnHeight(d: Domain, jx: int): nat
  {
    (if d.LowerY(jx) then d.MYG else 0) + d.MYSUB + (if d.UpperY(jx) then d.MYG else 0)
  }

  /**
   * The evolved rows of interior column jx, bottom to top; ColumnParts shows
   * they are the lower ghosts, the bulk and the upper ghosts in turn.
   */
  function Column(d: Domain, jx: int): seq<Point>
  {
    Run(jx, ColumnStart(d, jx), ColumnHeight(d, jx))
  }

  /** The first n interior columns, starting at jx = MXG. */
  function Columns(d: Domain, n: nat): seq<Point>
  {
    if n == 0 then [] else Columns(d, n - 1) + Column(d, d.MXG + n - 1)
  }

  /** The number of points in the first n interior columns. */
  function ColumnsSize(d: Domain, n: nat): nat
  {
    if n == 0 then 0 else ColumnsSize(d, n - 1) + ColumnHeight(d, d.MXG + n - 1)
  }

  /** Every point the packer visits, in visiting order. */
  function Points(d: Domain): seq<Point>
  {
    InnerX(d) + Columns(d, d.MXSUB) + OuterX(d)
  }

  /** Strict lexicographic order on (jx, jy). */
  predicate Before(a: Point, b: Point)
  {
    a.0 < b.0 || (a.0 == b.0 && a.1 < b.1)
  }

  predicate Increasing(s: seq<Point>)
  {
    forall a, b :: 0 <= a < b < |s| ==> Before(s[a], s[b])
  }

  predicate Distinct(s: seq<Point>)
  {
    forall a, b :: 0 <= a < b < |s| ==> s[a] != s[b]
  }

  // ---------------------------------------------------------------------
  // Size and contents of the pieces
  // ---------------------------------------------------------------------

  /** Two adjacent runs of one column make one run. */
  lemma {:induction false} RunConcat(jx: int, y0: int, a: nat, b: nat)
    ensures Run(jx, y0, a) + Run(jx, y0 + a, b) == Run(jx, y0, a + b)
  {
    var r := Run(jx, y0, a) + Run(jx, y0 + a, b);
    assert forall k :: 0 <= k < a + b ==> r[k] == (jx, y0 + k);
  }

  /** A run holds exactly the points of column jx from y0 to y0 + n - 1. */
  lemma {:induction false} RunHas(jx: int, y0: int, n: nat, p: Point)
    ensures p in Run(jx, y0, n) <==> p.0 == jx && y0 <= p.1 < y0 + n
  {
    if p.0 == jx && y0 <= p.1 < y0 + n {
      assert Run(jx, y0, n)[p.1 - y0] == p;
    }
  }

  lemma {:induction false} BlockLength(x0: int, nx: nat, y0: int, ny: nat)
    ensures |Block(x0, nx, y0, ny)| == nx * ny
  {
    if nx > 0 {
      BlockLength(x0, nx - 1, y0, ny);
      assert (nx - 1) * ny + ny == nx * ny;
    }
  }

  /** A block holds exactly the points of its columns and rows. */
  lemma {:induction false} BlockHas(x0: int, nx: nat, y0: int, ny: nat, p: Point)
    ensures p in Block(x0, nx, y0, ny) <==> x0 <= p.0 < x0 + nx && y0 <= p.1 < y0 + ny
  {
    if nx > 0 {
      BlockHas(x0, nx - 1, y0, ny, p);
      RunHas(x0 + nx - 1, y0, ny, p);
    }
  }

  /** An interior column holds exactly its evolved rows. */
  lemma {:induction false} ColumnHas(d: Domain, jx: int, p: Point)
    ensures p in Column(d, jx) <==> p.0 == jx && d.ColumnRow(jx, p.1)
  {
    RunHas(jx, ColumnStart(d, jx), ColumnHeight(d, jx), p);
  }

  /** The first n interior columns hold exactly their evolved rows. */
  lemma {:induction false} ColumnsHas(d: Domain, n: nat, p: Point)
    ensures p in Columns(d, n) <==> d.MXG <= p.0 < d.MXG + n && d.ColumnRow(p.0, p.1)
  {
    if n > 0 {
      ColumnsHas(d, n - 1, p);
      ColumnHas(d, d.MXG + n - 1, p);
    }
  }

  lemma {:induction false} ColumnsLength(d: Domain, n: nat)
    ensures |Columns(d, n)| == ColumnsSize(d, n)
  {
    if n > 0 {
      ColumnsLength(d, n - 1);
    }
  }

  lemma {:induction false} ColumnsSizeMono(d: Domain, a: nat, b: nat)
    requires a <= b
    ensures ColumnsSize(d, a) <= ColumnsSize(d, b)
    decreases b
  {
    if a < b {
      ColumnsSizeMono(d, a, b - 1);
    }
  }

  /** A column is its lower ghosts if evolved, then its bulk, then its upper ghosts if evolved. */
  lemma {:induction false} ColumnParts(d: Domain, jx: int)
    ensures |LowerGhosts(d, jx)| == if d.LowerY(jx) then d.MYG else 0
    ensures |UpperGhosts(d, jx)| == if d.UpperY(jx) then d.MYG else 0
    ensures |Column(d, jx)| == |LowerGhosts(d, jx)| + d.MYSUB + |UpperGhosts(d, jx)|
    ensures Column(d, jx) == LowerGhosts(d, jx) + Run(jx, d.MYG, d.MYSUB) + UpperGhosts(d, jx)
  {
    var y0 := ColumnStart(d, jx);
    var a := (if d.LowerY(jx) then d.MYG else 0) + d.MYSUB;
    if d.LowerY(jx) {
      RunConcat(jx, 0, d.MYG, d.MYSUB);
    }
    assert LowerGhosts(d, jx) + Run(jx, d.MYG, d.MYSUB) == Run(jx, y0, a);
    if d.UpperY(jx) {
      RunConcat(jx, y0, a, d.MYG);
    }
  }

  /** The inner and outer ghost regions each hold MXG * MYSUB points when present. */
  lemma {:induction false} XGhostSizes(d: Domain)
    ensures |InnerX(d)| == if d.IDATA_DEST == -1 then d.MXG * d.MYSUB else 0
    ensures |OuterX(d)| == if d.ODATA_DEST == -1 then d.MXG * d.MYSUB else 0
  {
    BlockLength(0, d.MXG, d.MYG, d.MYSUB);
    BlockLength(d.MXG + d.MXSUB, d.MXG, d.MYG, d.MYSUB);
  }

  // ---------------------------------------------------------------------
  // The visited set
  // ---------------------------------------------------------------------

  /** One point is visited exactly when the reference definition says so. */
  lemma {:induction false} PointHas(d: Domain, p: Point)
    ensures p in Points(d) <==> d.Visited(p)
  {
    BlockHas(0, d.MXG, d.MYG, d.MYSUB, p);
    BlockHas(d.MXG + d.MXSUB, d.MXG, d.MYG, d.MYSUB, p);
    ColumnsHas(d, d.MXSUB, p);
  }

  /** A point is visited exactly when the reference definition says so. */
  lemma {:induction false} PointsMembers(d: Domain)
    ensures forall p :: p in Points(d) <==> d.Visited(p)
  {
    forall p
      ensures p in Points(d) <==> d.Visited(p)
    {
      PointHas(d, p);
    }
  }

  /** Inner-x ghost rows are visited iff IDATA_DEST == -1, outer-x ones iff ODATA_DEST == -1. */
  lemma {:induction false} XGhostsVisited(d: Domain, jy: int)
    requires d.MYG <= jy < d.MYG + d.MYSUB
    ensures forall jx :: 0 <= jx < d.MXG ==> ((jx, jy) in Points(d) <==> d.IDATA_DEST == -1)
    ensures forall jx :: d.MXG + d.MXSUB <= jx < 2 * d.MXG + d.MXSUB ==> ((jx, jy) in Points(d) <==> d.ODATA_DEST == -1)
  {
    PointsMembers(d);
  }

  /** In an interior column the lower-y ghosts are visited iff LowerY, the upper-y ones iff UpperY. */
  lemma {:induction false} YGhostsVisited(d: Domain, jx: int)
    requires d.MXG <= jx < d.MXG + d.MXSUB
    ensures forall jy :: 0 <= jy < d.MYG ==> ((jx, jy) in Points(d) <==> d.LowerY(jx))
    ensures forall jy :: d.MYG + d.MYSUB <= jy < d.MYSUB + 2 * d.MYG ==> ((jx, jy) in Points(d) <==> d.UpperY(jx))
  {
    PointsMembers(d);
  }

  /** Every visited point lies in the local grid including its ghost cells. */
  lemma {:induction false} PointsInGrid(d: Domain)
    ensures forall p :: p in Points(d) ==> d.InGrid(p)
  {
    PointsMembers(d);
  }

  // ---------------------------------------------------------------------
  // Order and distinctness
  // ---------------------------------------------------------------------

  /** Every point of s lies in a column from lo to hi - 1. */
  predicate InColumns(s: seq<Point>, lo: int, hi: int)
  {
    forall i :: 0 <= i < |s| ==> lo <= s[i].0 < hi
  }

  lemma {:induction false} ConcatIncreasing(s: seq<Point>, t: seq<Point>)
    requires Increasing(s) && Increasing(t)
    requires forall i, j :: 0 <= i < |s| && 0 <= j < |t| ==> Before(s[i], t[j])
    ensures Increasing(s + t)
  {
    var u := s + t;
    forall a, b | 0 <= a < b < |u|
      ensures Before(u[a], u[b])
    {
      if b < |s| {
        assert u[a] == s[a] && u[b] == s[b];
      } else if a >= |s| {
        assert u[a] == t[a - |s|] && u[b] == t[b - |s|];
      } else {
        assert u[a] == s[a] && u[b] == t[b - |s|];
      }
    }
  }

  /** Increasing points of columns lo .. mid - 1 followed by increasing points of columns mid .. hi - 1 are increasing. */
  lemma {:induction false} ConcatColumns(s: seq<Point>, t: seq<Point>, lo: int, mid: int, hi: int)
    requires lo <= mid <= hi
    requires Increasing(s) && InColumns(s, lo, mid)
    requires Increasing(t) && InColumns(t, mid, hi)
    ensures Increasing(s + t) && InColumns(s + t, lo, hi)
  {
    ConcatIncreasing(s, t);
    var u := s + t;
    forall i | 0 <= i < |u|
      ensures lo <= u[i].0 < hi
    {
      if i < |s| {
        assert u[i] == s[i];
      } else {
        assert u[i] == t[i - |s|];
      }
    }
  }

  lemma {:induction false} RunIncreasing(jx: int, y0: int, n: nat)
    ensures Increasing(Run(jx, y0, n)) && InColumns(Run(jx, y0, n), jx, jx + 1)
  {
  }

  lemma {:induction false} BlockIncreasing(x0: int, nx: nat, y0: int, ny: nat)
    ensures Increasing(Block(x0, nx, y0, ny)) && InColumns(Block(x0, nx, y0, ny), x0, x0 + nx)
  {
    if nx > 0 {
      BlockIncreasing(x0, nx - 1, y0, ny);
      RunIncreasing(x0 + nx - 1, y0, ny);
      ConcatColumns(Block(x0, nx - 1, y0, ny), Run(x0 + nx - 1, y0, ny), x0, x0 + nx - 1, x0 + nx);
    }
  }

  lemma {:induction false} ColumnIncreasing(d: Domain, jx: int)
    ensures Increasing(Column(d, jx)) && InColumns(Column(d, jx), jx, jx + 1)
  {
    RunIncreasing(jx, ColumnStart(d, jx), ColumnHeight(d, jx));
  }

  lemma {:induction false} ColumnsIncreasing(d: Domain, n: nat)
    ensures Increasing(Columns(d, n)) && InColumns(Columns(d, n), d.MXG, d.MXG + n)
  {
    if n > 0 {
      ColumnsIncreasing(d, n - 1);
      ColumnIncreasing(d, d.MXG + n - 1);
      ConcatColumns(Columns(d, n - 1), Column(d, d.MXG + n - 1), d.MXG, d.MXG + n - 1, d.MXG + n);
    }
  }

  /** The visiting order is strictly increasing in (jx, jy). */
  lemma {:induction false} PointsIncreasing(d: Domain)
    ensures Increasing(Points(d))
  {
    var inner, cols, outer := InnerX(d), Columns(d, d.MXSUB), OuterX(d);
    BlockIncreasing(0, d.MXG, d.MYG, d.MYSUB);
    BlockIncreasing(d.MXG + d.MXSUB, d.MXG, d.MYG, d.MYSUB);
    ColumnsIncreasing(d, d.MXSUB);
    ConcatColumns(inner, cols, 0, d.MXG, d.MXG + d.MXSUB);
    ConcatColumns(inner + cols, outer, 0, d.MXG + d.MXSUB, 2 * d.MXG + d.MXSUB);
  }

  /** No point is visited twice, so buffer offsets are never reused. */
  lemma {:induction false} PointsDistinct(d: Domain)
    ensures Distinct(Points(d))
  {
    PointsIncreasing(d);
  }
}
