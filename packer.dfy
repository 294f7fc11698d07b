/**
 * The solver interface that copies the registered evolving variables to and
 * from the integrator's flat state vector: `LoopVarsOp` moves the values of
 * one (jx, jy) point, `LoopVars` visits the evolved points in their fixed
 * order, and `LoadFrom`, `SaveTo` and `SaveDerivsTo` wrap it with allocation,
 * null checks, vector bases and cell-location interpolation.
 */
module StatePacker {
  import opened Wrappers
  import opened Traversal
  import opened SlotLayout
  import opened PackedState
  import opened Placement
  import opened Transfer

  /**
   * A registered vector: the basis it is declared in, and the basis its
   * evolving value and its time derivative are currently held in.
   */
  datatype VecVar = VecVar(covariant: bool, varCovariant: bool, derivCovariant: bool)

  // ---------------------------------------------------------------------
  // Allocation
  // ---------------------------------------------------------------------

  function Grid2(d: Domain): set<Point>
  {
    set jx, jy | 0 <= jx < d.NGX() && 0 <= jy < d.NGY() :: (jx, jy)
  }

  function Grid3(d: Domain): set<Point3>
  {
    set jx, jy, jz | 0 <= jx < d.NGX() && 0 <= jy < d.NGY() && 0 <= jz < d.ncz :: (jx, jy, jz)
  }

  /** A 2D field with data everywhere on the grid; existing data is kept. */
  function Allocate2(d: Domain, f: Field2D): (r: Field2D)
    ensures r.data.Some?
    ensures f.data.None? ==> Covers2(d, r)
    ensures f.data.Some? ==> r == f
  {
    if f.data.Some? then f
    else
      var m := map p | p in Grid2(d) :: 0.0;
      assert forall jx, jy :: 0 <= jx < d.NGX() && 0 <= jy < d.NGY() ==> (jx, jy) in Grid2(d);
      Field2D(Some(m))
  }

  /** A 3D field with data everywhere on the grid; existing data is kept. */
  function Allocate3(d: Domain, f: Field3D): (r: Field3D)
    ensures r.data.Some? && r.location == f.location
    ensures f.data.None? ==> Covers3(d, r)
    ensures f.data.Some? ==> r == f
  {
    if f.data.Some? then f
    else
      var m := map p | p in Grid3(d) :: 0.0;
      assert forall jx, jy, jz :: 0 <= jx < d.NGX() && 0 <= jy < d.NGY() && 0 <= jz < d.ncz ==> (jx, jy, jz) in Grid3(d);
      Field3D(Some(m), f.location)
  }

  function Allocated2At(d: Domain, v: Var2D): Var2D
  {
    v.(field := Allocate2(d, v.field))
  }

  /** Allocate a 3D variable's field and move it to the variable's declared location. */
  function Allocated3At(d: Domain, v: Var3D): Var3D
  {
    v.(field := Allocate3(d, v.field).(location := v.location))
  }

  /** Every registered variable allocated, each 3D one at its declared location. */
  function AllocateAll(d: Domain, vars: Vars): (r: Vars)
    ensures Allocated(r) && AtLocations(r)
    ensures |r.f2d| == |vars.f2d| && |r.f3d| == |vars.f3d|
    ensures forall i :: 0 <= i < |vars.f2d| ==> r.f2d[i].deriv == vars.f2d[i].deriv
    ensures forall i :: 0 <= i < |vars.f3d| ==> r.f3d[i].deriv == vars.f3d[i].deriv && r.f3d[i].location == vars.f3d[i].location
  {
    Vars(seq(|vars.f2d|, i requires 0 <= i < |vars.f2d| => Allocated2At(d, vars.f2d[i])),
         seq(|vars.f3d|, i requires 0 <= i < |vars.f3d| => Allocated3At(d, vars.f3d[i])))
  }

  /** Every 3D variable's field is at the location it is evolved at. */
  predicate AtLocations(vars: Vars)
  {
    forall i :: 0 <= i < |vars.f3d| ==> vars.f3d[i].field.location == vars.f3d[i].location
  }

  /** Allocating variables that are already allocated and placed changes nothing. */
  lemma {:induction false} AllocateReady(d: Domain, vars: Vars)
    requires Ready(d, vars) && AtLocations(vars)
    ensures AllocateAll(d, vars) == vars
  {
    var r := AllocateAll(d, vars);
    assert forall i :: 0 <= i < |vars.f2d| ==> r.f2d[i] == vars.f2d[i];
    assert forall i :: 0 <= i < |vars.f3d| ==> r.f3d[i] == vars.f3d[i];
  }

  // ---------------------------------------------------------------------
  // Vector bases
  // ---------------------------------------------------------------------

  /** Each vector's evolving value put in its declared basis. */
  function WithVarBasis(vs: seq<VecVar>): (r: seq<VecVar>)
    ensures |r| == |vs|
    ensures forall i :: 0 <= i < |vs| ==>
              r[i].varCovariant == vs[i].covariant
              && r[i].covariant == vs[i].covariant && r[i].derivCovariant == vs[i].derivCovariant
  {
    seq(|vs|, i requires 0 <= i < |vs| => vs[i].(varCovariant := vs[i].covariant))
  }

  /** Each vector's time derivative put in its declared basis. */
  function WithDerivBasis(vs: seq<VecVar>): (r: seq<VecVar>)
    ensures |r| == |vs|
    ensures forall i :: 0 <= i < |vs| ==>
              r[i].derivCovariant == vs[i].covariant
              && r[i].covariant == vs[i].covariant && r[i].varCovariant == vs[i].varCovariant
  {
    seq(|vs|, i requires 0 <= i < |vs| => vs[i].(derivCovariant := vs[i].covariant))
  }

  /** The time derivative of a 3D variable, interpolated to the variable's location when it is elsewhere. */
  function Interpolated(v: Var3D, interp: (Field3D, CellLoc) -> Field3D): Var3D
  {
    if v.location != v.deriv.location then v.(deriv := interp(v.deriv, v.location)) else v
  }

  function InterpolatedAll(f3d: seq<Var3D>, interp: (Field3D, CellLoc) -> Field3D): (r: seq<Var3D>)
    ensures |r| == |f3d|
  {
    seq(|f3d|, i requires 0 <= i < |f3d| => Interpolated(f3d[i], interp))
  }

  /**
   * With an interpolation that returns a field at the location asked for, every
   * derivative ends at its variable's location, and evolving values are untouched.
   */
  lemma {:induction false} InterpolatedAtLocations(f3d: seq<Var3D>, interp: (Field3D, CellLoc) -> Field3D)
    requires forall f, loc :: interp(f, loc).location == loc
    ensures forall i :: 0 <= i < |f3d| ==>
              InterpolatedAll(f3d, interp)[i].deriv.location == f3d[i].location
              && InterpolatedAll(f3d, interp)[i].field == f3d[i].field
              && InterpolatedAll(f3d, interp)[i].location == f3d[i].location
  {
  }

  // ---------------------------------------------------------------------
  // The solver
  // ---------------------------------------------------------------------

  class Solver {
    /** The local subdomain, its neighbours and the number of evolved z points. */
    const dom: Domain
    /** Registered 2D and 3D variables, in registration order. */
    var f2d: seq<Var2D>
    var f3d: seq<Var3D>
    /** Registered 2D and 3D vectors. */
    var v2d: seq<VecVar>
    var v3d: seq<VecVar>

    constructor (d: Domain, f2: seq<Var2D>, f3: seq<Var3D>, vv2: seq<VecVar>, vv3: seq<VecVar>)
      ensures dom == d && f2d == f2 && f3d == f3 && v2d == vv2 && v3d == vv3
    {
      dom := d;
      f2d := f2;
      f3d := f3;
      v2d := vv2;
      v3d := vv3;
    }

    function State(): Vars
      reads this
    {
      Vars(f2d, f3d)
    }

    /** The values stored for one point, in the order they are copied. */
    function Layout(): seq<Slot>
      reads this
    {
      Slots(|f2d|, |f3d|, dom.ncz)
    }

    /** The 2D loop of LOAD_VARS: udata[p + i] into 2D variable i at (jx, jy). */
    method Load2D(jx: int, jy: int, udata: array<real>, p: nat) returns (p': nat)
      requires p + |f2d| <= udata.Length
      modifies this`f2d
      ensures |f2d| == old(|f2d|)
      ensures p' == p + |f2d|
      ensures State() == LoadSlots(old(State()), (jx, jy), Slots2(|f2d|), udata[p .. p'])
    {
      var n2d := |f2d|;
      ghost var s0 := State();
      ghost var L := Slots2(n2d);
      ghost var vals := udata[p .. p + n2d];
      p' := p;
      var i := 0;
      while i < n2d
        invariant 0 <= i <= n2d && p' == p + i
        invariant |f2d| == n2d
        invariant State() == LoadSlots(s0, (jx, jy), L[..i], vals[..i])
      {
        LoadSlotsStep(s0, (jx, jy), L, vals, i);
        var next := Write(State(), (jx, jy), Slot2(i), udata[p']);
        f2d := next.f2d;
        p' := p' + 1;
        i := i + 1;
      }
      assert L[..i] == L && vals[..i] == vals;
    }

    /** One pass of the 3D loop of LOAD_VARS: udata[p + i] into 3D variable i at (jx, jy, jz). */
    method LoadLayer(jx: int, jy: int, jz: nat, udata: array<real>, p: nat) returns (p': nat)
      requires p + |f3d| <= udata.Length
      modifies this`f3d
      ensures |f3d| == old(|f3d|)
      ensures p' == p + |f3d|
      ensures State() == LoadSlots(old(State()), (jx, jy), Layer(|f3d|, jz), udata[p .. p'])
    {
      var n3d := |f3d|;
      ghost var s0 := State();
      ghost var L := Layer(n3d, jz);
      ghost var vals := udata[p .. p + n3d];
      p' := p;
      var i := 0;
      while i < n3d
        invariant 0 <= i <= n3d && p' == p + i
        invariant |f3d| == n3d
        invariant State() == LoadSlots(s0, (jx, jy), L[..i], vals[..i])
      {
        LoadSlotsStep(s0, (jx, jy), L, vals, i);
        var next := Write(State(), (jx, jy), Slot3(i, jz), udata[p']);
        f3d := next.f3d;
        p' := p' + 1;
        i := i + 1;
      }
      assert L[..i] == L && vals[..i] == vals;
    }

    /** The z loop of LOAD_VARS at one point: the 3D loop once for each z index, from udata[p ..]. */
    method LoadLayers3D(jx: int, jy: int, udata: array<real>, p: nat) returns (p': nat)
      requires p + |Layers(|f3d|, dom.ncz)| <= udata.Length
      modifies this`f3d
      ensures |f3d| == old(|f3d|)
      ensures p' == p + |Layers(|f3d|, dom.ncz)|
      ensures State() == LoadLayers(old(State()), (jx, jy), |f3d|, dom.ncz, udata[..], p)
    {
      var n3d := |f3d|;
      ghost var s1 := State();
      ghost var u := udata[..];
      ghost var w := |Layers(n3d, dom.ncz)|;
      p' := p;
      var jz := 0;
      while jz < dom.ncz
        invariant 0 <= jz <= dom.ncz && |f3d| == n3d
        invariant p' == p + |Layers(n3d, jz)| && |Layers(n3d, jz)| <= w
        invariant State() == LoadLayers(s1, (jx, jy), n3d, jz, u, p)
      {
        LayersPrefix(n3d, jz + 1, dom.ncz);
        ghost var mid := p';
        LoadLayersStep(s1, State(), (jx, jy), n3d, jz, u, p, mid);
        p' := LoadLayer(jx, jy, jz, udata, p');
        assert udata[mid .. p'] == u[mid .. mid + n3d];
        jz := jz + 1;
      }
    }

    /** LOAD_VARS at one point: the 2D loop, then for each z index the 3D loop. */
    method LoadPoint(jx: int, jy: int, udata: array<real>, p: nat) returns (p': nat)
      requires p + |Layout()| <= udata.Length
      modifies this`f2d, this`f3d
      ensures |f2d| == old(|f2d|) && |f3d| == old(|f3d|)
      ensures p' == p + |Layout()|
      ensures State() == LoadSlots(old(State()), (jx, jy), Layout(), udata[p .. p'])
    {
      ghost var s0 := State();
      ghost var u := udata[..];
      p' := Load2D(jx, jy, udata, p);
      ghost var s1, p1 := State(), p';
      p' := LoadLayers3D(jx, jy, udata, p');
      LoadPointParts(s0, s1, State(), (jx, jy), |f2d|, |f3d|, dom.ncz, u, p, p1, p');
    }

    /** The 2D loop of SAVE_VARS / SAVE_DERIVS: 2D variable i at (jx, jy) into udata[p + i]. */
    method Save2D(jx: int, jy: int, udata: array<real>, p: nat, src: Source) returns (p': nat)
      requires p + |f2d| <= udata.Length
      modifies udata
      ensures p' == p + |f2d|
      ensures udata[..] == old(udata[..p]) + ReadSlots(State(), src, (jx, jy), Slots2(|f2d|)) + old(udata[p'..])
    {
      var n2d := |f2d|;
      ghost var u0 := udata[..];
      ghost var vals := ReadSlots(State(), src, (jx, jy), Slots2(n2d));
      p' := p;
      var i := 0;
      while i < n2d
        invariant 0 <= i <= n2d && p' == p + i
        invariant forall q :: 0 <= q < udata.Length ==> udata[q] == if p <= q < p' then vals[q - p] else u0[q]
      {
        udata[p'] := Read(State(), src, (jx, jy), Slot2(i));
        p' := p' + 1;
        i := i + 1;
      }
      assert udata[..] == u0[..p] + vals + u0[p'..];
    }

    /** One pass of the 3D loop of SAVE_VARS / SAVE_DERIVS: 3D variable i at (jx, jy, jz) into udata[p + i]. */
    method SaveLayer(jx: int, jy: int, jz: nat, udata: array<real>, p: nat, src: Source) returns (p': nat)
      requires p + |f3d| <= udata.Length
      modifies udata
      ensures p' == p + |f3d|
      ensures udata[..] == old(udata[..p]) + ReadSlots(State(), src, (jx, jy), Layer(|f3d|, jz)) + old(udata[p'..])
    {
      var n3d := |f3d|;
      ghost var u0 := udata[..];
      ghost var vals := ReadSlots(State(), src, (jx, jy), Layer(n3d, jz));
      p' := p;
      var i := 0;
      while i < n3d
        invariant 0 <= i <= n3d && p' == p + i
        invariant forall q :: 0 <= q < udata.Length ==> udata[q] == if p <= q < p' then vals[q - p] else u0[q]
      {
        udata[p'] := Read(State(), src, (jx, jy), Slot3(i, jz));
        p' := p' + 1;
        i := i + 1;
      }
      assert udata[..] == u0[..p] + vals + u0[p'..];
    }

    /** The z loop of SAVE_VARS / SAVE_DERIVS at one point: the 3D loop once for each z index, into udata[p ..]. */
    method SaveLayers3D(jx: int, jy: int, udata: array<real>, p: nat, src: Source) returns (p': nat)
      requires p + |Layers(|f3d|, dom.ncz)| <= udata.Length
      modifies udata
      ensures p' == p + |Layers(|f3d|, dom.ncz)|
      ensures udata[..] == old(udata[..p]) + ReadLayers(State(), src, (jx, jy), |f3d|, dom.ncz) + old(udata[p'..])
    {
      var n3d := |f3d|;
      ghost var u0 := udata[..];
      ghost var w := |Layers(n3d, dom.ncz)|;
      p' := p;
      var jz := 0;
      while jz < dom.ncz
        invariant 0 <= jz <= dom.ncz && udata.Length == |u0|
        invariant p' == p + |Layers(n3d, jz)| && |Layers(n3d, jz)| <= w
        invariant udata[..] == u0[..p] + ReadLayers(State(), src, (jx, jy), n3d, jz) + u0[p'..]
      {
        LayersPrefix(n3d, jz + 1, dom.ncz);
        ghost var before := udata[..];
        ghost var mid := p';
        p' := SaveLayer(jx, jy, jz, udata, p', src);
        SpliceAfter(u0, before, p, mid, p', ReadLayers(State(), src, (jx, jy), n3d, jz), ReadSlots(State(), src, (jx, jy), Layer(n3d, jz)));
        jz := jz + 1;
      }
    }

    /** SAVE_VARS / SAVE_DERIVS at one point: the 2D loop, then for each z index the 3D loop. */
    method SavePoint(jx: int, jy: int, udata: array<real>, p: nat, src: Source) returns (p': nat)
      requires p + |Layout()| <= udata.Length
      modifies udata
      ensures p' == p + |Layout()|
      ensures udata[..] == old(udata[..p]) + ReadSlots(State(), src, (jx, jy), Layout()) + old(udata[p'..])
    {
      ghost var u0 := udata[..];
      p' := Save2D(jx, jy, udata, p, src);
      ghost var mid := p';
      ghost var now := udata[..];
      p' := SaveLayers3D(jx, jy, udata, p', src);
      SpliceAfter(u0, now, p, mid, p', ReadSlots(State(), src, (jx, jy), Slots2(|f2d|)), ReadLayers(State(), src, (jx, jy), |f3d|, dom.ncz));
      ReadSlotsByLayers(State(), src, (jx, jy), |f2d|, |f3d|, dom.ncz);
    }

    /** loop_vars_op at one point: load it from, or save it to, udata[p .. p + |Layout()|]. */
    method LoopVarsOp(jx: int, jy: int, udata: array<real>, p: nat, op: VarOp) returns (p': nat)
      requires p + |Layout()| <= udata.Length
      modifies this`f2d, this`f3d, udata
      ensures Layout() == old(Layout())
      ensures p' == p + |Layout()|
      ensures (State(), udata[..]) == Step(op, Layout(), (jx, jy), p, (old(State()), old(udata[..])))
    {
      if op == LoadVars {
        p' := LoadPoint(jx, jy, udata, p);
      } else {
        p' := SavePoint(jx, jy, udata, p, SourceOf(op));
      }
    }

    /** One of the innermost loops of loop_vars: loop_vars_op at (jx, y0), ..., (jx, y0 + n - 1). */
    method VisitRun(jx: int, y0: int, n: nat, udata: array<real>, p: nat, op: VarOp) returns (p': nat)
      requires p + Span(n, |Layout()|) <= udata.Length
      modifies this`f2d, this`f3d, udata
      ensures Layout() == old(Layout()) && p' == p + Span(n, |Layout()|)
      ensures (State(), udata[..]) == Apply(op, Layout(), RunMoves(jx, y0, n, p, |Layout()|), (old(State()), old(udata[..])))
    {
      ghost var L := Layout();
      ghost var st0 := (State(), udata[..]);
      p' := p;
      var k := 0;
      while k < n
        invariant 0 <= k <= n && L == Layout()
        invariant p' == p + Span(k, |L|) && udata.Length == |st0.1|
        invariant (State(), udata[..]) == Apply(op, L, RunMoves(jx, y0, k, p, |L|), st0)
      {
        RunSpanNext(k, n, |L|);
        ghost var q, st1 := p', (State(), udata[..]);
        p' := LoopVarsOp(jx, y0 + k, udata, p', op);
        RunStep(op, L, jx, y0, k, p, q, st0, st1, (State(), udata[..]));
        k := k + 1;
      }
      assert k == n;
    }

    /** The x ghost loops of loop_vars: VisitRun(jx, y0, ny) for jx = x0 .. x0 + nx - 1. */
    method VisitBlock(x0: int, nx: nat, y0: int, ny: nat, udata: array<real>, p: nat, op: VarOp) returns (p': nat)
      requires p + Span(nx, Span(ny, |Layout()|)) <= udata.Length
      modifies this`f2d, this`f3d, udata
      ensures Layout() == old(Layout()) && p' == p + Span(nx, Span(ny, |Layout()|))
      ensures (State(), udata[..]) == Apply(op, Layout(), BlockMoves(x0, nx, y0, ny, p, |Layout()|), (old(State()), old(udata[..])))
    {
      ghost var L := Layout();
      ghost var st0 := (State(), udata[..]);
      p' := p;
      var k := 0;
      while k < nx
        invariant 0 <= k <= nx && L == Layout()
        invariant p' == p + Span(k, Span(ny, |L|)) && udata.Length == |st0.1|
        invariant (State(), udata[..]) == Apply(op, L, BlockMoves(x0, k, y0, ny, p, |L|), st0)
      {
        RunSpanNext(k, nx, Span(ny, |L|));
        ghost var q, st1 := p', (State(), udata[..]);
        p' := VisitRun(x0 + k, y0, ny, udata, p', op);
        BlockStep(op, L, x0, k, y0, ny, p, q, st0, st1, (State(), udata[..]));
        k := k + 1;
      }
      assert k == nx;
    }

    /** One interior column of loop_vars: the lower y ghosts if evolved, the bulk, the upper y ghosts if evolved. */
    method VisitColumn(jx: int, udata: array<real>, p: nat, op: VarOp) returns (p': nat)
      requires p + Span(ColumnHeight(dom, jx), |Layout()|) <= udata.Length
      modifies this`f2d, this`f3d, udata
      ensures Layout() == old(Layout()) && p' == p + Span(ColumnHeight(dom, jx), |Layout()|)
      ensures (State(), udata[..])
           == Apply(op, Layout(), RunMoves(jx, ColumnStart(dom, jx), ColumnHeight(dom, jx), p, |Layout()|),
                    (old(State()), old(udata[..])))
    {
      ghost var L := Layout();
      ghost var w := |L|;
      ghost var st0 := (State(), udata[..]);
      ColumnSpans(dom, jx, w);
      p' := p;
      if dom.LowerY(jx) {
        p' := VisitRun(jx, 0, dom.MYG, udata, p', op);
      }
      ghost var p1, st1 := p', (State(), udata[..]);
      p' := VisitRun(jx, dom.MYG, dom.MYSUB, udata, p', op);
      ghost var p2, st2 := p', (State(), udata[..]);
      if dom.UpperY(jx) {
        p' := VisitRun(jx, dom.MYSUB + dom.MYG, dom.MYG, udata, p', op);
      }
      ColumnStep(op, L, dom, jx, p, p1, p2, p', st0, st1, st2, (State(), udata[..]));
    }

    /** The loop of loop_vars over the interior columns jx = MXG .. MXG + MXSUB - 1. */
    method VisitColumns(udata: array<real>, p: nat, op: VarOp) returns (p': nat)
      requires p + Span(ColumnsSize(dom, dom.MXSUB), |Layout()|) <= udata.Length
      modifies this`f2d, this`f3d, udata
      ensures Layout() == old(Layout()) && p' == p + Span(ColumnsSize(dom, dom.MXSUB), |Layout()|)
      ensures (State(), udata[..]) == Apply(op, Layout(), ColumnsMoves(dom, dom.MXSUB, p, |Layout()|), (old(State()), old(udata[..])))
    {
      ghost var L := Layout();
      ghost var w := |L|;
      ghost var st0 := (State(), udata[..]);
      p' := p;
      var jx := dom.MXG;
      ghost var k := 0;
      while jx < dom.MXG + dom.MXSUB
        invariant jx == dom.MXG + k && k <= dom.MXSUB && L == Layout()
        invariant p' == p + Span(ColumnsSize(dom, k), w) && udata.Length == |st0.1|
        invariant (State(), udata[..]) == Apply(op, L, ColumnsMoves(dom, k, p, w), st0)
      {
        ColumnsSpanNext(dom, k, jx, w);
        ghost var q, st1 := p', (State(), udata[..]);
        p' := VisitColumn(jx, udata, p', op);
        ColumnsStep(op, L, dom, k, jx, p, q, st0, st1, (State(), udata[..]));
        jx := jx + 1;
        k := k + 1;
      }
      assert k == dom.MXSUB;
    }

    /**
     * loop_vars: moves every evolved point, in the order of Points(dom), between
     * the variables and the front of udata, which has room for all of them
     * (Extent(dom, w) == |Points(dom)| * w by ExtentIs).
     */
    method LoopVars(udata: array<real>, op: VarOp)
      requires Extent(dom, |Layout()|) <= udata.Length
      modifies this`f2d, this`f3d, udata
      ensures Layout() == old(Layout())
      ensures Progress(op, Layout(), old(State()), old(udata[..]), Points(dom), State(), udata[..])
    {
      ghost var L := Layout();
      ghost var w := |L|;
      ghost var st0 := (State(), udata[..]);
      assert Extent(dom, w) == InnerSpan(dom, w) + Span(ColumnsSize(dom, dom.MXSUB), w) + OuterSpan(dom, w);
      var p := 0;
      if dom.IDATA_DEST == -1 {
        p := VisitBlock(0, dom.MXG, dom.MYG, dom.MYSUB, udata, p, op);
      }
      ghost var p1, st1 := p, (State(), udata[..]);
      p := VisitColumns(udata, p, op);
      ghost var p2, st2 := p, (State(), udata[..]);
      if dom.ODATA_DEST == -1 {
        p := VisitBlock(dom.MXG + dom.MXSUB, dom.MXG, dom.MYG, dom.MYSUB, udata, p, op);
      }
      LoopVarsParts(op, L, dom, p1, p2, st0, st1, st2, (State(), udata[..]));
      AllMovesMeaning(op, L, dom, st0.0, st0.1, State(), udata[..]);
    }

    /** The allocation loops of load_vars: every field allocated, each 3D one moved to its variable's location. */
    method AllocateFields()
      modifies this`f2d, this`f3d
      ensures State() == AllocateAll(dom, old(State()))
    {
      ghost var s0 := State();
      var i := 0;
      while i < |f2d|
        invariant 0 <= i <= |f2d| && |f2d| == |s0.f2d| && f3d == s0.f3d
        invariant forall k :: 0 <= k < i ==> f2d[k] == Allocated2At(dom, s0.f2d[k])
        invariant forall k :: i <= k < |f2d| ==> f2d[k] == s0.f2d[k]
      {
        f2d := f2d[i := Allocated2At(dom, f2d[i])];
        i := i + 1;
      }
      assert f2d == AllocateAll(dom, s0).f2d;
      i := 0;
      while i < |f3d|
        invariant 0 <= i <= |f3d| && |f3d| == |s0.f3d| && f2d == AllocateAll(dom, s0).f2d
        invariant forall k :: 0 <= k < i ==> f3d[k] == Allocated3At(dom, s0.f3d[k])
        invariant forall k :: i <= k < |f3d| ==> f3d[k] == s0.f3d[k]
      {
        f3d := f3d[i := Allocated3At(dom, f3d[i])];
        i := i + 1;
      }
      assert f3d == AllocateAll(dom, s0).f3d;
    }

    /** The null checks of save_vars: some registered field has no data. */
    method MissingData() returns (missing: bool)
      ensures missing <==> !Allocated(State())
    {
      var i := 0;
      while i < |f2d|
        invariant 0 <= i <= |f2d|
        invariant forall k :: 0 <= k < i ==> f2d[k].field.data.Some?
      {
        if f2d[i].field.data.None? {
          return true;
        }
        i := i + 1;
      }
      i := 0;
      while i < |f3d|
        invariant 0 <= i <= |f3d|
        invariant forall k :: 0 <= k < i ==> f3d[k].field.data.Some?
      {
        if f3d[i].field.data.None? {
          return true;
        }
        i := i + 1;
      }
      return false;
    }

    /** The derivative loop of save_derivs: each 3D derivative interpolated to its variable's location where it is elsewhere. */
    method InterpolateDerivs(interp: (Field3D, CellLoc) -> Field3D)
      modifies this`f3d
      ensures f3d == InterpolatedAll(old(f3d), interp)
    {
      ghost var g := f3d;
      var i := 0;
      while i < |f3d|
        invariant 0 <= i <= |f3d| && |f3d| == |g|
        invariant forall k :: 0 <= k < i ==> f3d[k] == Interpolated(g[k], interp)
        invariant forall k :: i <= k < |f3d| ==> f3d[k] == g[k]
      {
        if f3d[i].location != f3d[i].deriv.location {
          f3d := f3d[i := f3d[i].(deriv := interp(f3d[i].deriv, f3d[i].location))];
        }
        i := i + 1;
      }
      assert f3d == InterpolatedAll(g, interp);
    }

    /**
     * load_vars: allocates every field, loads every evolved point from the
     * front of udata, and marks each vector's evolving value as being in its
     * declared basis; udata is read, not written.
     */
    method LoadFrom(udata: array<real>)
      requires |Points(dom)| * |Layout()| <= udata.Length
      modifies this`f2d, this`f3d, this`v2d, this`v3d, udata
      ensures Layout() == old(Layout()) && udata[..] == old(udata[..])
      ensures State() == LoadAll(AllocateAll(dom, old(State())), Points(dom), Layout(), udata[..])
      ensures v2d == WithVarBasis(old(v2d)) && v3d == WithVarBasis(old(v3d))
    {
      AllocateFields();
      ExtentIs(dom, |Layout()|);
      LoopVars(udata, LoadVars);
      v2d := Rebase(v2d, false);
      v3d := Rebase(v3d, false);
    }

    /**
     * save_vars: 1, changing nothing, when a registered field has no data;
     * otherwise puts each vector's value in its declared basis, packs every
     * evolved point's values at the front of udata, leaves the rest of it, and 0.
     */
    method SaveTo(udata: array<real>) returns (status: int)
      requires |Points(dom)| * |Layout()| <= udata.Length
      modifies this`f2d, this`f3d, this`v2d, this`v3d, udata
      ensures status == 0 || status == 1
      ensures status == 1 <==> !Allocated(old(State()))
      ensures State() == old(State())
      ensures status == 1 ==> v2d == old(v2d) && v3d == old(v3d) && udata[..] == old(udata[..])
      ensures status == 0 ==> v2d == WithVarBasis(old(v2d)) && v3d == WithVarBasis(old(v3d))
      ensures status == 0 ==>
                udata[..] == Pack(State(), Value, Points(dom), Layout()) + old(udata[|Points(dom)| * |Layout()|..])
    {
      var missing := MissingData();
      if missing {
        return 1;
      }
      v2d := Rebase(v2d, false);
      v3d := Rebase(v3d, false);
      ExtentIs(dom, |Layout()|);
      LoopVars(udata, SaveVars);
      return 0;
    }

    /**
     * save_derivs: puts each vector's time derivative in its declared basis,
     * interpolates each 3D derivative to its variable's location, then packs
     * every evolved point's derivatives at the front of dudata. Unlike save_vars
     * it does not check for missing data: every derivative must have data, and
     * so must what the interpolation returns.
     */
    method SaveDerivsTo(dudata: array<real>, interp: (Field3D, CellLoc) -> Field3D)
      requires |Points(dom)| * |Layout()| <= dudata.Length
      requires forall i :: 0 <= i < |f2d| ==> f2d[i].deriv.data.Some?
      requires forall i :: 0 <= i < |f3d| ==> f3d[i].deriv.data.Some?
      requires forall f: Field3D, loc: CellLoc :: f.data.Some? ==> interp(f, loc).data.Some?
      modifies this`f2d, this`f3d, this`v2d, this`v3d, dudata
      ensures v2d == WithDerivBasis(old(v2d)) && v3d == WithDerivBasis(old(v3d))
      ensures f2d == old(f2d) && f3d == InterpolatedAll(old(f3d), interp)
      ensures forall i :: 0 <= i < |f3d| ==> f3d[i].deriv.data.Some?
      ensures dudata[..] == Pack(State(), Derivative, Points(dom), Layout()) + old(dudata[|Points(dom)| * |Layout()|..])
    {
      v2d := Rebase(v2d, true);
      v3d := Rebase(v3d, true);
      InterpolateDerivs(interp);
      ExtentIs(dom, |Layout()|);
      LoopVars(dudata, SaveDerivs);
    }
  }

  /** The basis-marking loops: each vector's value (or, with deriv, its time derivative) put in its declared basis. */
  method Rebase(vs: seq<VecVar>, deriv: bool) returns (r: seq<VecVar>)
    ensures r == if deriv then WithDerivBasis(vs) else WithVarBasis(vs)
  {
    r := vs;
    var i := 0;
    while i < |r|
      invariant 0 <= i <= |r| == |vs|
      invariant forall k :: 0 <= k < i ==> r[k] == if deriv then vs[k].(derivCovariant := vs[k].covariant) else vs[k].(varCovariant := vs[k].covariant)
      invariant forall k :: i <= k < |r| ==> r[k] == vs[k]
    {
      if deriv {
        r := r[i := r[i].(derivCovariant := r[i].covariant)];
      } else {
        r := r[i := r[i].(varCovariant := r[i].covariant)];
      }
      i := i + 1;
    }
  }

  /**
   * save_vars followed by load_vars changes nothing: with every evolving field
   * allocated on the grid at its location, loading a buffer that starts with
   * what save_vars wrote gives back the variables it was written from.
   */
  lemma {:induction false} SaveThenLoad(d: Domain, vars: Vars, buf: seq<real>)
    requires Ready(d, vars) && AtLocations(vars)
    requires |Points(d)| * |Slots(|vars.f2d|, |vars.f3d|, d.ncz)| <= |buf|
    requires buf[..|Points(d)| * |Slots(|vars.f2d|, |vars.f3d|, d.ncz)|]
          == Pack(vars, Value, Points(d), Slots(|vars.f2d|, |vars.f3d|, d.ncz))
    ensures LoadAll(AllocateAll(d, vars), Points(d), Slots(|vars.f2d|, |vars.f3d|, d.ncz), buf) == vars
  {
    AllocateReady(d, vars);
    PointsInGrid(d);
    SlotsMembers(|vars.f2d|, |vars.f3d|, d.ncz);
    PackThenLoad(d, vars, Points(d), Slots(|vars.f2d|, |vars.f3d|, d.ncz), buf);
  }

  /**
   * load_vars followed by save_vars gives back the buffer: the values loaded
   * are read back from exactly where they were stored.
   */
  lemma {:induction false} LoadThenSave(d: Domain, vars: Vars, buf: seq<real>)
    requires |Points(d)| * |Slots(|vars.f2d|, |vars.f3d|, d.ncz)| <= |buf|
    ensures Pack(LoadAll(AllocateAll(d, vars), Points(d), Slots(|vars.f2d|, |vars.f3d|, d.ncz), buf), Value,
                 Points(d), Slots(|vars.f2d|, |vars.f3d|, d.ncz))
         == buf[..|Points(d)| * |Slots(|vars.f2d|, |vars.f3d|, d.ncz)|]
  {
    var L := Slots(|vars.f2d|, |vars.f3d|, d.ncz);
    PointsDistinct(d);
    SlotsMembers(|vars.f2d|, |vars.f3d|, d.ncz);
    SlotsDistinct(|vars.f2d|, |vars.f3d|, d.ncz);
    LoadThenPack(AllocateAll(d, vars), Points(d), L, buf, d.ncz);
  }
}
