/**
 * The evolving variables registered with the time integrator, and what it
 * means to copy them to and from the flat state vector: per point, the values
 * in slot order (`ReadSlots` / `LoadSlots`), and over a sequence of points,
 * the concatenation of those (`Pack` / `LoadAll`).
 */
module PackedState {
  import opened Wrappers
  import opened Traversal
  import opened SlotLayout

  type Point3 = (int, int, int)

  /** Where a 3D field's values sit within a grid cell. */
  datatype CellLoc = Centre | XLow | YLow | ZLow

  /** A 2D field; its data is None until allocated. */
  datatype Field2D = Field2D(data: Option<map<Point, real>>)

  /** A 3D field and the cell location it is currently defined at. */
  datatype Field3D = Field3D(data: Option<map<Point3, real>>, location: CellLoc)

  /** A registered 2D variable: the evolving field and its time derivative. */
  datatype Var2D = Var2D(field: Field2D, deriv: Field2D)

  /** A registered 3D variable, with the cell location it is evolved at. */
  datatype Var3D = Var3D(field: Field3D, deriv: Field3D, location: CellLoc)

  /** All registered 2D and 3D variables, in registration order. */
  datatype Vars = Vars(f2d: seq<Var2D>, f3d: seq<Var3D>)

  /** Which of a variable's two fields an operation reads. */
  datatype Source = Value | Derivative

  function Get2(f: Field2D, p: Point): real
  {
    if f.data.Some? && p in f.data.value then f.data.value[p] else 0.0
  }

  function Get3(f: Field3D, p: Point3): real
  {
    if f.data.Some? && p in f.data.value then f.data.value[p] else 0.0
  }

  /** Store one value; a field without data is left as it is. */
  function Put2(f: Field2D, p: Point, x: real): Field2D
  {
    if f.data.Some? then Field2D(Some(f.data.value[p := x])) else f
  }

  function Put3(f: Field3D, p: Point3, x: real): Field3D
  {
    if f.data.Some? then Field3D(Some(f.data.value[p := x]), f.location) else f
  }

  function Of2(v: Var2D, src: Source): Field2D
  {
    if src == Value then v.field else v.deriv
  }

  function Of3(v: Var3D, src: Source): Field3D
  {
    if src == Value then v.field else v.deriv
  }

  /** The value a slot names at point pt, read from the field or the derivative. */
  function Read(vars: Vars, src: Source, pt: Point, s: Slot): real
  {
    match s
    case Slot2(i) => if i < |vars.f2d| then Get2(Of2(vars.f2d[i], src), pt) else 0.0
    case Slot3(i, jz) => if i < |vars.f3d| then Get3(Of3(vars.f3d[i], src), (pt.0, pt.1, jz)) else 0.0
  }

  /** Store x into the evolving field a slot names, at point pt. */
  function Write(vars: Vars, pt: Point, s: Slot, x: real): Vars
  {
    match s
    case Slot2(i) =>
      if i < |vars.f2d| then
        vars.(f2d := vars.f2d[i := vars.f2d[i].(field := Put2(vars.f2d[i].field, pt, x))])
      else vars
    case Slot3(i, jz) =>
      if i < |vars.f3d| then
        vars.(f3d := vars.f3d[i := vars.f3d[i].(field := Put3(vars.f3d[i].field, (pt.0, pt.1, jz), x))])
      else vars
  }

  /** The values of the given slots at one point, in order. */
  function ReadSlots(vars: Vars, src: Source, pt: Point, slots: seq<Slot>): (r: seq<real>)
    ensures |r| == |slots|
  {
    seq(|slots|, k requires 0 <= k < |slots| => Read(vars, src, pt, slots[k]))
  }

  /** Store vals[k] into slot slots[k] at one point, for k in increasing order. */
  function LoadSlots(vars: Vars, pt: Point, slots: seq<Slot>, vals: seq<real>): Vars
    requires |vals| == |slots|
  {
    if |slots| == 0 then vars
    else
      var n := |slots| - 1;
      Write(LoadSlots(vars, pt, slots[..n], vals[..n]), pt, slots[n], vals[n])
  }

  /** The values of all points, point after point. */
  function Pack(vars: Vars, src: Source, pts: seq<Point>, slots: seq<Slot>): seq<real>
  {
    if |pts| == 0 then []
    else
      var n := |pts| - 1;
      Pack(vars, src, pts[..n], slots) + ReadSlots(vars, src, pts[n], slots)
  }

  /** Load point pts[j] from buf[j * |slots| .. (j + 1) * |slots|], for j in increasing order. */
  function LoadAll(vars: Vars, pts: seq<Point>, slots: seq<Slot>, buf: seq<real>): Vars
    requires |pts| * |slots| <= |buf|
  {
    if |pts| == 0 then vars
    else
      var n := |pts| - 1;
      MulStep(n, |slots|);
      LoadSlots(LoadAll(vars, pts[..n], slots, buf), pts[n], slots, buf[n * |slots| .. n * |slots| + |slots|])
  }

  // ---------------------------------------------------------------------
  // Shape predicates
  // ---------------------------------------------------------------------

  /** Every registered field has data. */
  predicate Allocated(vars: Vars)
  {
    (forall i :: 0 <= i < |vars.f2d| ==> vars.f2d[i].field.data.Some?)
    && (forall i :: 0 <= i < |vars.f3d| ==> vars.f3d[i].field.data.Some?)
  }

  /** The field has data at every point of the local grid. */
  predicate Covers2(d: Domain, f: Field2D)
  {
    f.data.Some? && forall jx, jy :: 0 <= jx < d.NGX() && 0 <= jy < d.NGY() ==> (jx, jy) in f.data.value
  }

  /** The field has data at every point of the local grid and every evolved z index. */
  predicate Covers3(d: Domain, f: Field3D)
  {
    f.data.Some? &&
    forall jx, jy, jz :: 0 <= jx < d.NGX() && 0 <= jy < d.NGY() && 0 <= jz < d.ncz ==> (jx, jy, jz) in f.data.value
  }

  /** Every registered evolving field is allocated on the whole grid. */
  predicate Ready(d: Domain, vars: Vars)
  {
    (forall i :: 0 <= i < |vars.f2d| ==> Covers2(d, vars.f2d[i].field))
    && (forall i :: 0 <= i < |vars.f3d| ==> Covers3(d, vars.f3d[i].field))
  }

  /** The slots name registered variables and evolved z indices. */
  predicate SlotsFor(vars: Vars, ncz: nat, slots: seq<Slot>)
  {
    forall s :: s in slots ==> SlotIn(s, |vars.f2d|, |vars.f3d|, ncz)
  }

  predicate DistinctSlots(slots: seq<Slot>)
  {
    forall a, b :: 0 <= a < b < |slots| ==> slots[a] != slots[b]
  }

  /** Two variable sets with the same registrations and derivatives, differing at most in evolving values. */
  predicate SameShape(v: Vars, w: Vars)
  {
    |v.f2d| == |w.f2d| && |v.f3d| == |w.f3d|
    && (forall i :: 0 <= i < |v.f2d| ==> v.f2d[i].deriv == w.f2d[i].deriv && v.f2d[i].field.data.Some? == w.f2d[i].field.data.Some?)
    && (forall i :: 0 <= i < |v.f3d| ==> v.f3d[i].deriv == w.f3d[i].deriv && v.f3d[i].location == w.f3d[i].location
                                          && v.f3d[i].field.location == w.f3d[i].field.location
                                          && v.f3d[i].field.data.Some? == w.f3d[i].field.data.Some?)
  }

  // ---------------------------------------------------------------------
  // Arithmetic helpers
  // ---------------------------------------------------------------------

  lemma {:induction false} MulStep(n: nat, w: nat)
    ensures (n + 1) * w == n * w + w
  {
  }

  lemma {:induction false} SliceSplit(s: seq<real>, a: nat, b: nat, c: nat)
    requires a <= b <= c <= |s|
    ensures s[a..b] + s[b..c] == s[a..c]
  {
  }

  /** Writing b over buf[mid .. q], after a was written over buf[p .. mid], writes a + b over buf[p .. q]. */
  lemma {:induction false} SpliceAfter(buf: seq<real>, now: seq<real>, p: nat, mid: nat, q: nat, a: seq<real>, b: seq<real>)
    requires p <= mid <= q <= |buf| && |a| == mid - p && |b| == q - mid
    requires now == buf[..p] + a + buf[mid..]
    ensures now[..mid] + b + now[q..] == buf[..p] + (a + b) + buf[q..]
  {
    assert now[..mid] == buf[..p] + a;
    assert now[q..] == buf[q..];
  }

  lemma {:induction false} MulMono(a: nat, b: nat, w: nat)
    requires a <= b
    ensures a * w <= b * w
  {
  }

  // ---------------------------------------------------------------------
  // One write
  // ---------------------------------------------------------------------

  /** A write changes only the value it targets. */
  lemma {:induction false} WriteFrame(vars: Vars, pt: Point, s: Slot, x: real, src: Source, q: Point, t: Slot)
    requires src == Derivative || q != pt || s != t
    ensures Read(Write(vars, pt, s, x), src, q, t) == Read(vars, src, q, t)
  {
  }

  /** A write to an allocated registered variable is read back. */
  lemma {:induction false} WriteHit(vars: Vars, pt: Point, s: Slot, x: real, ncz: nat)
    requires Allocated(vars) && SlotIn(s, |vars.f2d|, |vars.f3d|, ncz)
    ensures Read(Write(vars, pt, s, x), Value, pt, s) == x
  {
  }

  lemma {:induction false} WriteShape(vars: Vars, pt: Point, s: Slot, x: real)
    ensures SameShape(vars, Write(vars, pt, s, x))
  {
  }

  /** Writing back the value already stored at a grid point changes nothing. */
  lemma {:induction false} WriteSame(d: Domain, vars: Vars, pt: Point, s: Slot)
    requires Ready(d, vars) && d.InGrid(pt) && SlotIn(s, |vars.f2d|, |vars.f3d|, d.ncz)
    ensures Write(vars, pt, s, Read(vars, Value, pt, s)) == vars
  {
    match s
    case Slot2(i) =>
      var m := vars.f2d[i].field.data.value;
      assert m[pt := m[pt]] == m;
      assert vars.f2d[i := vars.f2d[i]] == vars.f2d;
    case Slot3(i, jz) =>
      var m := vars.f3d[i].field.data.value;
      var key := (pt.0, pt.1, jz);
      assert key in m;
      assert m[key := m[key]] == m;
      assert vars.f3d[i := vars.f3d[i]] == vars.f3d;
  }

  // ---------------------------------------------------------------------
  // One point
  // ---------------------------------------------------------------------

  lemma {:induction false} LoadSlotsShape(vars: Vars, pt: Point, slots: seq<Slot>, vals: seq<real>)
    requires |vals| == |slots|
    ensures SameShape(vars, LoadSlots(vars, pt, slots, vals))
  {
    if |slots| > 0 {
      var n := |slots| - 1;
      LoadSlotsShape(vars, pt, slots[..n], vals[..n]);
      WriteShape(LoadSlots(vars, pt, slots[..n], vals[..n]), pt, slots[n], vals[n]);
    }
  }

  /** Loading one point leaves other points, slots outside the layout and derivatives as they were. */
  lemma {:induction false} LoadSlotsFrame(vars: Vars, pt: Point, slots: seq<Slot>, vals: seq<real>, src: Source, q: Point, t: Slot)
    requires |vals| == |slots|
    requires src == Derivative || q != pt || t !in slots
    ensures Read(LoadSlots(vars, pt, slots, vals), src, q, t) == Read(vars, src, q, t)
  {
    if |slots| > 0 {
      var n := |slots| - 1;
      assert t !in slots ==> t !in slots[..n];
      LoadSlotsFrame(vars, pt, slots[..n], vals[..n], src, q, t);
      WriteFrame(LoadSlots(vars, pt, slots[..n], vals[..n]), pt, slots[n], vals[n], src, q, t);
    }
  }

  /** After loading one point, each of its slots reads back the value loaded into it. */
  lemma {:induction false} LoadSlotsHit(vars: Vars, pt: Point, slots: seq<Slot>, vals: seq<real>, ncz: nat, k: nat)
    requires |vals| == |slots| && k < |slots|
    requires Allocated(vars) && SlotsFor(vars, ncz, slots) && DistinctSlots(slots)
    ensures Read(LoadSlots(vars, pt, slots, vals), Value, pt, slots[k]) == vals[k]
  {
    var n := |slots| - 1;
    var before := LoadSlots(vars, pt, slots[..n], vals[..n]);
    LoadSlotsShape(vars, pt, slots[..n], vals[..n]);
    assert slots[n] in slots;
    if k == n {
      WriteHit(before, pt, slots[n], vals[n], ncz);
    } else {
      assert slots[k] != slots[n];
      WriteFrame(before, pt, slots[n], vals[n], Value, pt, slots[k]);
      assert slots[..n][k] == slots[k];
      LoadSlotsHit(vars, pt, slots[..n], vals[..n], ncz, k);
    }
  }

  /** Loading the values a point already holds changes nothing. */
  lemma {:induction false} LoadSlotsSame(d: Domain, vars: Vars, pt: Point, slots: seq<Slot>, vals: seq<real>)
    requires Ready(d, vars) && d.InGrid(pt) && SlotsFor(vars, d.ncz, slots)
    requires vals == ReadSlots(vars, Value, pt, slots)
    ensures LoadSlots(vars, pt, slots, vals) == vars
  {
    if |slots| > 0 {
      var n := |slots| - 1;
      assert vals[..n] == ReadSlots(vars, Value, pt, slots[..n]);
      LoadSlotsSame(d, vars, pt, slots[..n], vals[..n]);
      assert slots[n] in slots;
      WriteSame(d, vars, pt, slots[n]);
    }
  }

  // ---------------------------------------------------------------------
  // All points
  // ---------------------------------------------------------------------

  lemma {:induction false} PackLength(vars: Vars, src: Source, pts: seq<Point>, slots: seq<Slot>)
    ensures |Pack(vars, src, pts, slots)| == |pts| * |slots|
  {
    if |pts| > 0 {
      PackLength(vars, src, pts[..|pts| - 1], slots);
      MulStep(|pts| - 1, |slots|);
    }
  }

  /** Offset j * |slots| + k of the packed vector holds slot k of point j. */
  lemma {:induction false} PackAt(vars: Vars, src: Source, pts: seq<Point>, slots: seq<Slot>, j: nat, k: nat)
    requires j < |pts| && k < |slots|
    ensures j * |slots| + k < |Pack(vars, src, pts, slots)|
    ensures Pack(vars, src, pts, slots)[j * |slots| + k] == Read(vars, src, pts[j], slots[k])
  {
    var n := |pts| - 1;
    PackLength(vars, src, pts, slots);
    PackLength(vars, src, pts[..n], slots);
    MulStep(j, |slots|);
    if j < n {
      MulMono(j + 1, n, |slots|);
      PackAt(vars, src, pts[..n], slots, j, k);
    }
  }

  lemma {:induction false} LoadAllShape(vars: Vars, pts: seq<Point>, slots: seq<Slot>, buf: seq<real>)
    requires |pts| * |slots| <= |buf|
    ensures SameShape(vars, LoadAll(vars, pts, slots, buf))
  {
    if |pts| > 0 {
      var n := |pts| - 1;
      MulStep(n, |slots|);
      LoadAllShape(vars, pts[..n], slots, buf);
      var mid := LoadAll(vars, pts[..n], slots, buf);
      LoadSlotsShape(mid, pts[n], slots, buf[n * |slots| .. n * |slots| + |slots|]);
    }
  }

  /** Loading the first c + 1 slots is loading the first c, then writing slot c. */
  lemma {:induction false} LoadSlotsStep(vars: Vars, pt: Point, slots: seq<Slot>, vals: seq<real>, c: nat)
    requires |vals| == |slots| && c < |slots|
    ensures LoadSlots(vars, pt, slots[..c + 1], vals[..c + 1])
            == Write(LoadSlots(vars, pt, slots[..c], vals[..c]), pt, slots[c], vals[c])
  {
    assert slots[..c + 1][..c] == slots[..c];
    assert vals[..c + 1][..c] == vals[..c];
  }

  /** Loading the slots of a + b is loading those of a, then those of b. */
  lemma {:induction false} LoadSlotsAppend(vars: Vars, pt: Point, a: seq<Slot>, x: seq<real>, b: seq<Slot>, y: seq<real>)
    requires |x| == |a| && |y| == |b|
    ensures LoadSlots(vars, pt, a + b, x + y) == LoadSlots(LoadSlots(vars, pt, a, x), pt, b, y)
  {
    if |b| > 0 {
      var n := |b| - 1;
      assert (a + b)[..|a| + n] == a + b[..n];
      assert (x + y)[..|a| + n] == x + y[..n];
      LoadSlotsAppend(vars, pt, a, x, b[..n], y[..n]);
    } else {
      assert a + b == a && x + y == x;
    }
  }

  lemma {:induction false} ReadSlotsAppend(vars: Vars, src: Source, pt: Point, a: seq<Slot>, b: seq<Slot>)
    ensures ReadSlots(vars, src, pt, a + b) == ReadSlots(vars, src, pt, a) + ReadSlots(vars, src, pt, b)
  {
  }

  /** Loading buf[p .. mid] into slots a and then buf[mid .. q] into slots b is loading buf[p .. q] into a + b. */
  lemma {:induction false} LoadSlotsThen(vars: Vars, pt: Point, a: seq<Slot>, b: seq<Slot>, buf: seq<real>, p: nat, mid: nat, q: nat)
    requires p <= mid <= q <= |buf| && mid - p == |a| && q - mid == |b|
    ensures LoadSlots(LoadSlots(vars, pt, a, buf[p .. mid]), pt, b, buf[mid .. q]) == LoadSlots(vars, pt, a + b, buf[p .. q])
  {
    LoadSlotsAppend(vars, pt, a, buf[p .. mid], b, buf[mid .. q]);
    SliceSplit(buf, p, mid, q);
  }

  /**
   * Loading the 3D values of one point layer by layer from buf[base ..]: z index
   * jz takes the n3d values that follow the layers before it.
   */
  function LoadLayers(vars: Vars, pt: Point, n3d: nat, nz: nat, buf: seq<real>, base: nat): Vars
    requires base + |Layers(n3d, nz)| <= |buf|
  {
    if nz == 0 then vars
    else
      var m := base + |Layers(n3d, nz - 1)|;
      LoadSlots(LoadLayers(vars, pt, n3d, nz - 1, buf, base), pt, Layer(n3d, nz - 1), buf[m .. m + n3d])
  }

  /** Reading the 3D values of one point layer by layer. */
  function ReadLayers(vars: Vars, src: Source, pt: Point, n3d: nat, nz: nat): (r: seq<real>)
    ensures |r| == |Layers(n3d, nz)|
  {
    if nz == 0 then [] else ReadLayers(vars, src, pt, n3d, nz - 1) + ReadSlots(vars, src, pt, Layer(n3d, nz - 1))
  }

  /** One more layer loads, on top of the layers before it, the n3d values that follow them. */
  lemma {:induction false} LoadLayersStep(vars: Vars, prev: Vars, pt: Point, n3d: nat, nz: nat, buf: seq<real>, base: nat, mid: nat)
    requires base + |Layers(n3d, nz + 1)| <= |buf|
    requires prev == LoadLayers(vars, pt, n3d, nz, buf, base) && mid == base + |Layers(n3d, nz)|
    ensures mid + n3d <= |buf|
    ensures LoadLayers(vars, pt, n3d, nz + 1, buf, base) == LoadSlots(prev, pt, Layer(n3d, nz), buf[mid .. mid + n3d])
  {
    assert |Layers(n3d, nz + 1)| == |Layers(n3d, nz)| + n3d;
  }

  /** Loading the layers as one sequence is loading them one layer at a time. */
  lemma {:induction false} LoadLayersAll(vars: Vars, pt: Point, n3d: nat, nz: nat, buf: seq<real>, base: nat)
    requires base + |Layers(n3d, nz)| <= |buf|
    ensures LoadSlots(vars, pt, Layers(n3d, nz), buf[base .. base + |Layers(n3d, nz)|]) == LoadLayers(vars, pt, n3d, nz, buf, base)
  {
    if nz > 0 {
      var m := base + |Layers(n3d, nz - 1)|;
      LoadLayersAll(vars, pt, n3d, nz - 1, buf, base);
      LoadSlotsThen(vars, pt, Layers(n3d, nz - 1), Layer(n3d, nz - 1), buf, base, m, m + n3d);
    }
  }

  /**
   * Loading a point's layout from buf[p ..] is loading its 2D values, then its
   * 3D values layer by layer.
   */
  lemma {:induction false} LoadSlotsByLayers(vars: Vars, pt: Point, n2d: nat, n3d: nat, ncz: nat, buf: seq<real>, p: nat)
    requires p + |Slots(n2d, n3d, ncz)| <= |buf|
    ensures LoadSlots(vars, pt, Slots(n2d, n3d, ncz), buf[p .. p + |Slots(n2d, n3d, ncz)|])
            == LoadLayers(LoadSlots(vars, pt, Slots2(n2d), buf[p .. p + n2d]), pt, n3d, ncz, buf, p + n2d)
  {
    var a, b := Slots2(n2d), Layers(n3d, ncz);
    var mid, q := p + n2d, p + |Slots(n2d, n3d, ncz)|;
    assert Slots(n2d, n3d, ncz) == a + b && |a| == n2d && q == mid + |b|;
    LoadSlotsThen(vars, pt, a, b, buf, p, mid, q);
    LoadLayersAll(LoadSlots(vars, pt, a, buf[p .. mid]), pt, n3d, ncz, buf, mid);
  }

  /** Loading the 2D values from buf[p ..] and then the layers after them is loading the point's layout. */
  lemma {:induction false} LoadPointParts(s0: Vars, s1: Vars, s2: Vars, pt: Point, n2d: nat, n3d: nat, ncz: nat,
                                          buf: seq<real>, p: nat, p1: nat, p2: nat)
    requires p1 == p + n2d && p2 == p1 + |Layers(n3d, ncz)| && p2 <= |buf|
    requires s1 == LoadSlots(s0, pt, Slots2(n2d), buf[p .. p1])
    requires s2 == LoadLayers(s1, pt, n3d, ncz, buf, p1)
    ensures p2 == p + |Slots(n2d, n3d, ncz)|
    ensures s2 == LoadSlots(s0, pt, Slots(n2d, n3d, ncz), buf[p .. p2])
  {
    LoadSlotsByLayers(s0, pt, n2d, n3d, ncz, buf, p);
  }

  /** Reading a point's layout is reading its 2D values, then its 3D values layer by layer. */
  lemma {:induction false} ReadSlotsByLayers(vars: Vars, src: Source, pt: Point, n2d: nat, n3d: nat, ncz: nat)
    ensures ReadSlots(vars, src, pt, Slots(n2d, n3d, ncz))
            == ReadSlots(vars, src, pt, Slots2(n2d)) + ReadLayers(vars, src, pt, n3d, ncz)
  {
    if ncz > 0 {
      ReadSlotsByLayers(vars, src, pt, n2d, n3d, ncz - 1);
      assert Slots(n2d, n3d, ncz) == Slots(n2d, n3d, ncz - 1) + Layer(n3d, ncz - 1);
      ReadSlotsAppend(vars, src, pt, Slots(n2d, n3d, ncz - 1), Layer(n3d, ncz - 1));
    } else {
      assert Slots(n2d, n3d, 0) == Slots2(n2d);
    }
  }

  /** Loading leaves every point that is not loaded, and every derivative, as it was. */
  lemma {:induction false} LoadAllFrame(vars: Vars, pts: seq<Point>, slots: seq<Slot>, buf: seq<real>, src: Source, q: Point, t: Slot)
    requires |pts| * |slots| <= |buf|
    requires src == Derivative || q !in pts
    ensures Read(LoadAll(vars, pts, slots, buf), src, q, t) == Read(vars, src, q, t)
  {
    if |pts| > 0 {
      var n := |pts| - 1;
      MulStep(n, |slots|);
      assert q !in pts ==> q !in pts[..n] && q != pts[n];
      LoadAllFrame(vars, pts[..n], slots, buf, src, q, t);
      var mid := LoadAll(vars, pts[..n], slots, buf);
      LoadSlotsFrame(mid, pts[n], slots, buf[n * |slots| .. n * |slots| + |slots|], src, q, t);
    }
  }

  /**
   * Packing and then loading the same points changes nothing: with the evolving
   * fields allocated on the grid, a buffer that starts with the packed values
   * loads back to the variables it was packed from.
   */
  lemma {:induction false} PackThenLoad(d: Domain, vars: Vars, pts: seq<Point>, slots: seq<Slot>, buf: seq<real>)
    requires Ready(d, vars) && SlotsFor(vars, d.ncz, slots)
    requires forall p :: p in pts ==> d.InGrid(p)
    requires |pts| * |slots| <= |buf| && buf[..|pts| * |slots|] == Pack(vars, Value, pts, slots)
    ensures LoadAll(vars, pts, slots, buf) == vars
  {
    if |pts| > 0 {
      var n := |pts| - 1;
      var w := |slots|;
      MulStep(n, w);
      PackLength(vars, Value, pts[..n], slots);
      var whole := Pack(vars, Value, pts, slots);
      assert whole == Pack(vars, Value, pts[..n], slots) + ReadSlots(vars, Value, pts[n], slots);
      assert buf[..n * w] == whole[..n * w];
      PackThenLoad(d, vars, pts[..n], slots, buf);
      assert buf[n * w .. n * w + w] == whole[n * w .. n * w + w];
      LoadSlotsSame(d, vars, pts[n], slots, buf[n * w .. n * w + w]);
    }
  }

  /** Packing reads nothing but the packed points. */
  lemma {:induction false} PackFrame(v: Vars, w: Vars, src: Source, pts: seq<Point>, slots: seq<Slot>)
    requires forall q, t :: q in pts ==> Read(v, src, q, t) == Read(w, src, q, t)
    ensures Pack(v, src, pts, slots) == Pack(w, src, pts, slots)
  {
    if |pts| > 0 {
      var n := |pts| - 1;
      PackFrame(v, w, src, pts[..n], slots);
      assert pts[n] in pts;
    }
  }

  /** After loading one point, it reads back exactly the values loaded. */
  lemma {:induction false} LoadSlotsReadBack(vars: Vars, pt: Point, slots: seq<Slot>, vals: seq<real>, ncz: nat)
    requires |vals| == |slots|
    requires Allocated(vars) && SlotsFor(vars, ncz, slots) && DistinctSlots(slots)
    ensures ReadSlots(LoadSlots(vars, pt, slots, vals), Value, pt, slots) == vals
  {
    forall k | 0 <= k < |slots|
      ensures ReadSlots(LoadSlots(vars, pt, slots, vals), Value, pt, slots)[k] == vals[k]
    {
      LoadSlotsHit(vars, pt, slots, vals, ncz, k);
    }
  }

  /**
   * Loading and then packing distinct points gives back the buffer: each point's
   * block is read from the fields exactly where it was stored, and loading a
   * later point does not disturb an earlier one.
   */
  lemma {:induction false} LoadThenPack(vars: Vars, pts: seq<Point>, slots: seq<Slot>, buf: seq<real>, ncz: nat)
    requires |pts| * |slots| <= |buf|
    requires Allocated(vars) && SlotsFor(vars, ncz, slots) && DistinctSlots(slots) && Distinct(pts)
    ensures Pack(LoadAll(vars, pts, slots, buf), Value, pts, slots) == buf[..|pts| * |slots|]
  {
    if |pts| > 0 {
      var n := |pts| - 1;
      var w := |slots|;
      MulStep(n, w);
      var mid := LoadAll(vars, pts[..n], slots, buf);
      var block := buf[n * w .. n * w + w];
      var after := LoadSlots(mid, pts[n], slots, block);
      assert after == LoadAll(vars, pts, slots, buf);
      LoadAllShape(vars, pts[..n], slots, buf);
      LoadSlotsReadBack(mid, pts[n], slots, block, ncz);
      forall q, t | q in pts[..n]
        ensures Read(after, Value, q, t) == Read(mid, Value, q, t)
      {
        var j :| 0 <= j < n && pts[..n][j] == q;
        assert pts[j] != pts[n];
        LoadSlotsFrame(mid, pts[n], slots, block, Value, q, t);
      }
      PackFrame(after, mid, Value, pts[..n], slots);
      LoadThenPack(vars, pts[..n], slots, buf, ncz);
      assert buf[..n * w + w] == buf[..n * w] + block;
    }
  }

  /** The derivative of every registered variable, swapped into the evolving field's place. */
  function Swapped(vars: Vars): Vars
  {
    Vars(seq(|vars.f2d|, i requires 0 <= i < |vars.f2d| => Var2D(vars.f2d[i].deriv, vars.f2d[i].field)),
         seq(|vars.f3d|, i requires 0 <= i < |vars.f3d| => Var3D(vars.f3d[i].deriv, vars.f3d[i].field, vars.f3d[i].location)))
  }

  /** Packing derivatives uses the same offsets as packing values, reading the other field. */
  lemma {:induction false} PackDerivatives(vars: Vars, pts: seq<Point>, slots: seq<Slot>)
    ensures Pack(vars, Derivative, pts, slots) == Pack(Swapped(vars), Value, pts, slots)
  {
    if |pts| > 0 {
      var n := |pts| - 1;
      PackDerivatives(vars, pts[..n], slots);
      assert ReadSlots(vars, Derivative, pts[n], slots) == ReadSlots(Swapped(vars), Value, pts[n], slots);
    }
  }
}
