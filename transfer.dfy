/**
 * What one traversal of the state vector does, independently of how the loops
 * are written: which direction the data moves in, what moving one point does,
 * and what has been done after moving a prefix of the points.
 */
module Transfer {
  import opened Traversal
  import opened SlotLayout
  import opened PackedState
  import opened Placement

  /** The three directions data can move in. */
  datatype VarOp = LoadVars | SaveVars | SaveDerivs

  /** The field a saving operation reads: the value, or the time derivative. */
  function SourceOf(op: VarOp): Source
  {
    if op == SaveDerivs then Derivative else Value
  }

  /**
   * loop_vars_op at point pt with offset p, on variables and buffer st:
   * LOAD_VARS stores buffer[p .. p + |L|] into the slots of L at pt, SAVE_VARS and
   * SAVE_DERIVS write the slots' values or derivatives over buffer[p .. p + |L|].
   */
  function Step(op: VarOp, L: seq<Slot>, pt: Point, p: nat, st: (Vars, seq<real>)): (r: (Vars, seq<real>))
    requires p + |L| <= |st.1|
    ensures |r.1| == |st.1|
    ensures op == LoadVars ==> r.1 == st.1
    ensures op != LoadVars ==> r.0 == st.0 && r.1[..p] == st.1[..p] && r.1[p + |L|..] == st.1[p + |L|..]
  {
    if op == LoadVars then (LoadSlots(st.0, pt, L, st.1[p .. p + |L|]), st.1)
    else (st.0, st.1[..p] + ReadSlots(st.0, SourceOf(op), pt, L) + st.1[p + |L|..])
  }

  /**
   * After visiting the points `visited` from state s0 and buffer u0, using slot
   * layout L: loading has loaded exactly those points and left the buffer alone;
   * saving has left the variables alone and packed exactly those points at the
   * front of the buffer, leaving the rest of it as it was.
   */
  predicate Progress(op: VarOp, L: seq<Slot>, s0: Vars, u0: seq<real>, visited: seq<Point>, s: Vars, u: seq<real>)
  {
    |visited| * |L| <= |u0|
    && if op == LoadVars then u == u0 && s == LoadAll(s0, visited, L, u0)
       else s == s0 && u == Pack(s0, SourceOf(op), visited, L) + u0[|visited| * |L|..]
  }

  lemma {:induction false} ProgressStart(op: VarOp, L: seq<Slot>, s0: Vars, u0: seq<real>)
    ensures Progress(op, L, s0, u0, [], s0, u0)
  {
    assert u0[0 * |L|..] == u0;
  }

  /**
   * Moving one more point, the one whose values sit at u[p .. p + |L|] with
   * p == |visited| * |L|, keeps the progress of the traversal.
   */
  lemma {:induction false} ProgressNext(op: VarOp, L: seq<Slot>, s0: Vars, u0: seq<real>, visited: seq<Point>, s: Vars, u: seq<real>,
                     pt: Point, p: nat)
    requires Progress(op, L, s0, u0, visited, s, u)
    requires p == |visited| * |L| && p + |L| <= |u|
    ensures Progress(op, L, s0, u0, visited + [pt], Step(op, L, pt, p, (s, u)).0, Step(op, L, pt, p, (s, u)).1)
  {
    var n := |visited|;
    var w := |L|;
    MulStep(n, w);
    var vs := visited + [pt];
    assert vs[..n] == visited;
    if op != LoadVars {
      var head := Pack(s0, SourceOf(op), visited, L);
      PackLength(s0, SourceOf(op), visited, L);
      assert u[..p] == head;
      assert u[p + w..] == u0[p + w..];
      assert Pack(s0, SourceOf(op), vs, L) == head + ReadSlots(s, SourceOf(op), pt, L);
    }
  }

  // ---------------------------------------------------------------------
  // Carrying out a list of moves
  // ---------------------------------------------------------------------

  /**
   * Moves ms carried out in order, each a Step; a move whose values would not
   * fit in the buffer is skipped (the loops of the solver never make one).
   */
  function Apply(op: VarOp, L: seq<Slot>, ms: seq<Move>, st: (Vars, seq<real>)): (r: (Vars, seq<real>))
    ensures |r.1| == |st.1|
    decreases |ms|
  {
    if |ms| == 0 then st
    else Apply(op, L, ms[1..], if ms[0].1 + |L| <= |st.1| then Step(op, L, ms[0].0, ms[0].1, st) else st)
  }

  /** Carrying out a + b is carrying out a, then b. */
  lemma {:induction false} ApplyConcat(op: VarOp, L: seq<Slot>, a: seq<Move>, b: seq<Move>, st: (Vars, seq<real>))
    ensures Apply(op, L, a + b, st) == Apply(op, L, b, Apply(op, L, a, st))
    decreases |a|
  {
    if |a| == 0 {
      assert a + b == b;
    } else {
      assert (a + b)[1..] == a[1..] + b;
      assert (a + b)[0] == a[0];
      ApplyConcat(op, L, a[1..], b, if a[0].1 + |L| <= |st.1| then Step(op, L, a[0].0, a[0].1, st) else st);
    }
  }

  /** One more move that fits is one more Step. */
  lemma {:induction false} ApplySnoc(op: VarOp, L: seq<Slot>, ms: seq<Move>, m: Move, st: (Vars, seq<real>))
    requires m.1 + |L| <= |st.1|
    ensures Apply(op, L, ms + [m], st) == Step(op, L, m.0, m.1, Apply(op, L, ms, st))
  {
    ApplyConcat(op, L, ms, [m], st);
    assert [m][1..] == [];
  }

  // The loops of loop_vars, one iteration at a time: the moves done so far,
  // then the moves of the next iteration, are the moves of one more iteration.

  lemma {:induction false} RunStep(op: VarOp, L: seq<Slot>, jx: int, y0: int, k: nat, p: nat, q: nat,
                                   st0: (Vars, seq<real>), st1: (Vars, seq<real>), st2: (Vars, seq<real>))
    requires q == p + Span(k, |L|) && q + |L| <= |st1.1|
    requires st1 == Apply(op, L, RunMoves(jx, y0, k, p, |L|), st0)
    requires st2 == Step(op, L, (jx, y0 + k), q, st1)
    ensures st2 == Apply(op, L, RunMoves(jx, y0, k + 1, p, |L|), st0)
  {
    RunMovesNext(jx, y0, k, p, |L|);
    ApplySnoc(op, L, RunMoves(jx, y0, k, p, |L|), ((jx, y0 + k), q), st0);
  }

  lemma {:induction false} BlockStep(op: VarOp, L: seq<Slot>, x0: int, k: nat, y0: int, ny: nat, p: nat, q: nat,
                                     st0: (Vars, seq<real>), st1: (Vars, seq<real>), st2: (Vars, seq<real>))
    requires q == p + Span(k, Span(ny, |L|))
    requires st1 == Apply(op, L, BlockMoves(x0, k, y0, ny, p, |L|), st0)
    requires st2 == Apply(op, L, RunMoves(x0 + k, y0, ny, q, |L|), st1)
    ensures st2 == Apply(op, L, BlockMoves(x0, k + 1, y0, ny, p, |L|), st0)
  {
    BlockMovesNext(x0, k, y0, ny, p, |L|);
    ApplyConcat(op, L, BlockMoves(x0, k, y0, ny, p, |L|), RunMoves(x0 + k, y0, ny, q, |L|), st0);
  }

  /** The three runs of one interior column: lower ghosts if evolved, interior rows, upper ghosts if evolved. */
  lemma {:induction false} ColumnStep(op: VarOp, L: seq<Slot>, d: Domain, jx: int, p: nat, p1: nat, p2: nat, p3: nat,
                   st0: (Vars, seq<real>), st1: (Vars, seq<real>), st2: (Vars, seq<real>), st3: (Vars, seq<real>))
    requires d.LowerY(jx) ==> p1 == p + Span(d.MYG, |L|) && st1 == Apply(op, L, RunMoves(jx, 0, d.MYG, p, |L|), st0)
    requires !d.LowerY(jx) ==> p1 == p && st1 == st0
    requires p2 == p1 + Span(d.MYSUB, |L|) && st2 == Apply(op, L, RunMoves(jx, d.MYG, d.MYSUB, p1, |L|), st1)
    requires d.UpperY(jx) ==> p3 == p2 + Span(d.MYG, |L|) && st3 == Apply(op, L, RunMoves(jx, d.MYSUB + d.MYG, d.MYG, p2, |L|), st2)
    requires !d.UpperY(jx) ==> p3 == p2 && st3 == st2
    ensures p3 == p + Span(ColumnHeight(d, jx), |L|)
    ensures st3 == Apply(op, L, RunMoves(jx, ColumnStart(d, jx), ColumnHeight(d, jx), p, |L|), st0)
  {
    var w := |L|;
    ColumnMovesParts(d, jx, p, w);
    var q1 := p + Span(LowerRows(d, jx), w);
    var q2 := q1 + Span(d.MYSUB, w);
    var r1 := RunMoves(jx, ColumnStart(d, jx), LowerRows(d, jx), p, w);
    var r2 := RunMoves(jx, d.MYG, d.MYSUB, q1, w);
    var r3 := RunMoves(jx, d.MYSUB + d.MYG, UpperRows(d, jx), q2, w);
    if d.LowerY(jx) {
      assert LowerRows(d, jx) == d.MYG && ColumnStart(d, jx) == 0;
    } else {
      assert LowerRows(d, jx) == 0 && r1 == [];
    }
    assert p1 == q1 && st1 == Apply(op, L, r1, st0);
    assert p2 == q2;
    if d.UpperY(jx) {
      assert UpperRows(d, jx) == d.MYG;
    } else {
      assert UpperRows(d, jx) == 0 && r3 == [];
    }
    assert st3 == Apply(op, L, r3, st2);
    ApplyConcat(op, L, r1, r2, st0);
    ApplyConcat(op, L, r1 + r2, r3, st0);
  }

  lemma {:induction false} ColumnsStep(op: VarOp, L: seq<Slot>, d: Domain, k: nat, jx: int, p: nat, q: nat,
                                       st0: (Vars, seq<real>), st1: (Vars, seq<real>), st2: (Vars, seq<real>))
    requires jx == d.MXG + k && q == p + Span(ColumnsSize(d, k), |L|)
    requires st1 == Apply(op, L, ColumnsMoves(d, k, p, |L|), st0)
    requires st2 == Apply(op, L, RunMoves(jx, ColumnStart(d, jx), ColumnHeight(d, jx), q, |L|), st1)
    ensures st2 == Apply(op, L, ColumnsMoves(d, k + 1, p, |L|), st0)
  {
    ColumnsMovesNext(d, k, jx, p, |L|);
    ApplyConcat(op, L, ColumnsMoves(d, k, p, |L|), RunMoves(jx, ColumnStart(d, jx), ColumnHeight(d, jx), q, |L|), st0);
  }

  /** Placing the points pts from offset 0 and carrying out the moves is the traversal Progress describes. */
  lemma {:induction false} ApplyMeaning(op: VarOp, L: seq<Slot>, s0: Vars, u0: seq<real>, pts: seq<Point>)
    requires |pts| * |L| <= |u0|
    ensures Progress(op, L, s0, u0, pts, Apply(op, L, Placed(pts, 0, |L|), (s0, u0)).0,
                     Apply(op, L, Placed(pts, 0, |L|), (s0, u0)).1)
    decreases |pts|
  {
    if |pts| == 0 {
      ProgressStart(op, L, s0, u0);
    } else {
      var n := |pts| - 1;
      var w := |L|;
      MulStep(n, w);
      SpanIsProduct(n, w);
      ApplyMeaning(op, L, s0, u0, pts[..n]);
      var prev := Apply(op, L, Placed(pts[..n], 0, w), (s0, u0));
      assert pts[..n] + [pts[n]] == pts;
      PlacedConcat(pts[..n], [pts[n]], 0, w);
      assert Placed([pts[n]], n * w, w) == [(pts[n], n * w)];
      ApplySnoc(op, L, Placed(pts[..n], 0, w), (pts[n], n * w), (s0, u0));
      ProgressNext(op, L, s0, u0, pts[..n], prev.0, prev.1, pts[n], n * w);
    }
  }

  /**
   * The three parts of loop_vars, each carried out from where the last one
   * ended: the inner x ghosts when IDATA_DEST == -1, the interior columns, and
   * the outer x ghosts when ODATA_DEST == -1, together carry out AllMoves(d).
   */
  lemma {:induction false} LoopVarsParts(op: VarOp, L: seq<Slot>, d: Domain, p1: nat, p2: nat,
                                         st0: (Vars, seq<real>), st1: (Vars, seq<real>), st2: (Vars, seq<real>), st3: (Vars, seq<real>))
    requires d.IDATA_DEST == -1 ==> p1 == Span(d.MXG, Span(d.MYSUB, |L|)) && st1 == Apply(op, L, BlockMoves(0, d.MXG, d.MYG, d.MYSUB, 0, |L|), st0)
    requires d.IDATA_DEST != -1 ==> p1 == 0 && st1 == st0
    requires p2 == p1 + Span(ColumnsSize(d, d.MXSUB), |L|) && st2 == Apply(op, L, ColumnsMoves(d, d.MXSUB, p1, |L|), st1)
    requires d.ODATA_DEST == -1 ==> st3 == Apply(op, L, BlockMoves(d.MXG + d.MXSUB, d.MXG, d.MYG, d.MYSUB, p2, |L|), st2)
    requires d.ODATA_DEST != -1 ==> st3 == st2
    ensures st3 == Apply(op, L, AllMoves(d, |L|), st0)
  {
    var w := |L|;
    var inner, cols, outer := InnerMoves(d, w), ColumnsMoves(d, d.MXSUB, p1, w), OuterMoves(d, p2, w);
    assert p1 == InnerSpan(d, w) && st1 == Apply(op, L, inner, st0);
    assert st3 == Apply(op, L, outer, st2);
    assert AllMoves(d, w) == inner + cols + outer;
    ApplyConcat(op, L, inner, cols, st0);
    ApplyConcat(op, L, inner + cols, outer, st0);
  }

  /** Carrying out the moves of the loops of loop_vars over d is the traversal of Points(d) that Progress describes. */
  lemma {:induction false} AllMovesMeaning(op: VarOp, L: seq<Slot>, d: Domain, s0: Vars, u0: seq<real>, s: Vars, u: seq<real>)
    requires Extent(d, |L|) <= |u0|
    requires (s, u) == Apply(op, L, AllMoves(d, |L|), (s0, u0))
    ensures Progress(op, L, s0, u0, Points(d), s, u)
  {
    ExtentIs(d, |L|);
    AllMovesIs(d, |L|);
    ApplyMeaning(op, L, s0, u0, Points(d));
  }
}
