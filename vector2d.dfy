/**
 * Axisymmetric (z-independent) vector fields: three 2D scalar components and a
 * flag saying whether they are covariant or contravariant components.
 * Basis changes contract with the metric tensor of the mesh; compound
 * addition and subtraction first bring the left operand into the right
 * operand's basis; scaling never changes the basis; the cross product always
 * yields contravariant components; the dot product depends on whether the two
 * bases agree.
 *
 * The algebra is stated one mesh point at a time on `Vec` values; the class
 * `Vector2D` holds the component fields and applies it at every point.
 *
 * `Point` and `Field2D` here are the mesh's own (jx, jy) and a component field
 * defined on the whole mesh. A vector's components always have data, so a field
 * is a plain map; the solver's registered fields (`PackedState.Field2D`) may have
 * none yet and carry an `Option`. The two modules share no values, so each keeps
 * the representation its code needs.
 */
module Vectors {

  type Point = (int, int)

  /** A 2D scalar field: one value per (jx, jy) point of the mesh. */
  type Field2D = map<Point, real>

  /** The metric at one mesh point: g^{ij}, g_{ij} and the Jacobian J. */
  datatype Metric = Metric(g11: real, g22: real, g33: real, g12: real, g13: real, g23: real,
                           g_11: real, g_22: real, g_33: real, g_12: real, g_13: real, g_23: real,
                           J: real)

  /**
   * The mesh: x indices 0..ncx, y indices 0..ncy (both inclusive), ncz points in z,
   * and the metric at every (x, y) point.
   */
  datatype Geometry = Geometry(ncx: nat, ncy: nat, ncz: nat, metric: map<Point, Metric>)
  {
    predicate Valid()
    {
      forall jx: int, jy: int :: 0 <= jx <= ncx && 0 <= jy <= ncy ==> (jx, jy) in metric
    }

    /** The Jacobian is nonzero everywhere, so that cross products are defined. */
    predicate JacobianNonzero()
    {
      forall p :: p in metric ==> metric[p].J != 0.0
    }
  }

  /** A vector at one mesh point. */
  datatype Vec = Vec(x: real, y: real, z: real, covariant: bool)

  // ---------------------------------------------------------------------
  // Pointwise algebra
  // ---------------------------------------------------------------------

  /** Multiply by g_{ij}: contravariant components to covariant ones. */
  function Lower(m: Metric, v: Vec): Vec
  {
    Vec(m.g_11 * v.x + m.g_12 * v.y + m.g_13 * v.z,
        m.g_12 * v.x + m.g_22 * v.y + m.g_23 * v.z,
        m.g_13 * v.x + m.g_23 * v.y + m.g_33 * v.z,
        true)
  }

  /** Multiply by g^{ij}: covariant components to contravariant ones. */
  function Raise(m: Metric, v: Vec): Vec
  {
    Vec(m.g11 * v.x + m.g12 * v.y + m.g13 * v.z,
        m.g12 * v.x + m.g22 * v.y + m.g23 * v.z,
        m.g13 * v.x + m.g23 * v.y + m.g33 * v.z,
        false)
  }

  /** `to_covariant`: lower the components unless they already are covariant. */
  function AsCovariant(m: Metric, v: Vec): Vec
  {
    if v.covariant then v else Lower(m, v)
  }

  /** `to_contravariant`: raise the components unless they already are contravariant. */
  function AsContravariant(m: Metric, v: Vec): Vec
  {
    if v.covariant then Raise(m, v) else v
  }

  /** The conversion that `+=` and `-=` apply to the left operand. */
  function InBasis(m: Metric, v: Vec, covariant: bool): Vec
  {
    if covariant then AsCovariant(m, v) else AsContravariant(m, v)
  }

  /** `a += b` at one point. */
  function Sum(m: Metric, a: Vec, b: Vec): Vec
  {
    var l := InBasis(m, a, b.covariant);
    Vec(l.x + b.x, l.y + b.y, l.z + b.z, l.covariant)
  }

  /** `a -= b` at one point. */
  function Difference(m: Metric, a: Vec, b: Vec): Vec
  {
    var l := InBasis(m, a, b.covariant);
    Vec(l.x - b.x, l.y - b.y, l.z - b.z, l.covariant)
  }

  /** Unary minus: every component times -1.0. */
  function Negated(v: Vec): Vec
  {
    Vec(v.x * -1.0, v.y * -1.0, v.z * -1.0, v.covariant)
  }

  /** `*=` by a scalar (or by the value of a 2D field at this point). */
  function Scaled(v: Vec, r: real): Vec
  {
    Vec(v.x * r, v.y * r, v.z * r, v.covariant)
  }

  /** `/=` by a scalar (or by the value of a 2D field at this point). */
  function Divided(v: Vec, r: real): Vec
    requires r != 0.0
  {
    Vec(v.x / r, v.y / r, v.z / r, v.covariant)
  }

  /** Contravariant components of l x r from covariant components l and r. */
  function CrossComponents(m: Metric, l: Vec, r: Vec): Vec
    requires m.J != 0.0
  {
    Vec((l.y * r.z - l.z * r.y) / m.J,
        (l.z * r.x - l.x * r.z) / m.J,
        (l.x * r.y - l.y * r.x) / m.J,
        false)
  }

  /** `a ^= b`: the cross product, from covariant copies of both operands; the result is contravariant. */
  function CrossAt(m: Metric, a: Vec, b: Vec): Vec
    requires m.J != 0.0
  {
    CrossComponents(m, AsCovariant(m, a), AsCovariant(m, b))
  }

  /** The dot product `a * b` at one point. */
  function DotAt(m: Metric, a: Vec, b: Vec): real
  {
    if a.covariant != b.covariant then
      a.x * b.x + a.y * b.y + a.z * b.z
    else if a.covariant then
      a.x * b.x * m.g11 + a.y * b.y * m.g22 + a.z * b.z * m.g33
      + ((a.x * b.y + a.y * b.x) * m.g12 + (a.x * b.z + a.z * b.x) * m.g13 + (a.y * b.z + a.z * b.y) * m.g23)
    else
      a.x * b.x * m.g_11 + a.y * b.y * m.g_22 + a.z * b.z * m.g_33
      + ((a.x * b.y + a.y * b.x) * m.g_12 + (a.x * b.z + a.z * b.x) * m.g_13 + (a.y * b.z + a.z * b.y) * m.g_23)
  }

  // ---------------------------------------------------------------------
  // Properties of the pointwise algebra
  // ---------------------------------------------------------------------

  /** to_covariant always ends covariant, leaves covariant vectors alone, and is idempotent. */
  lemma {:induction false} AsCovariantIdempotent(m: Metric, v: Vec)
    ensures AsCovariant(m, v).covariant
    ensures v.covariant ==> AsCovariant(m, v) == v
    ensures AsCovariant(m, AsCovariant(m, v)) == AsCovariant(m, v)
  {
  }

  /** to_contravariant always ends contravariant, leaves contravariant vectors alone, and is idempotent. */
  lemma {:induction false} AsContravariantIdempotent(m: Metric, v: Vec)
    ensures !AsContravariant(m, v).covariant
    ensures !v.covariant ==> AsContravariant(m, v) == v
    ensures AsContravariant(m, AsContravariant(m, v)) == AsContravariant(m, v)
  {
  }

  /** `+=` and `-=` leave the left operand in the right operand's basis; in a shared basis they act componentwise. */
  lemma {:induction false} SumDifferenceBasis(m: Metric, a: Vec, b: Vec)
    ensures Sum(m, a, b).covariant == b.covariant && Difference(m, a, b).covariant == b.covariant
    ensures a.covariant == b.covariant ==>
              Sum(m, a, b) == Vec(a.x + b.x, a.y + b.y, a.z + b.z, b.covariant) &&
              Difference(m, a, b) == Vec(a.x - b.x, a.y - b.y, a.z - b.z, b.covariant)
  {
  }

  /** Subtracting b undoes adding b, up to the basis change of the left operand. */
  lemma {:induction false} SumThenDifference(m: Metric, a: Vec, b: Vec)
    ensures Difference(m, Sum(m, a, b), b) == InBasis(m, a, b.covariant)
  {
  }

  /** Subtraction is addition of the negated right operand. */
  lemma {:induction false} DifferenceIsSumOfNegated(m: Metric, a: Vec, b: Vec)
    ensures Difference(m, a, b) == Sum(m, a, Negated(b))
  {
  }

  /** Scaling keeps the basis, and dividing by the same nonzero factor undoes it. */
  lemma {:induction false} ScaledThenDivided(v: Vec, r: real)
    requires r != 0.0
    ensures Scaled(v, r).covariant == v.covariant
    ensures Divided(Scaled(v, r), r) == v
  {
  }

  /** Negation keeps the basis and is an involution. */
  lemma {:induction false} NegatedInvolution(v: Vec)
    ensures Negated(v).covariant == v.covariant
    ensures Negated(Negated(v)) == v
  {
  }

  /** The cross product is contravariant and antisymmetric. */
  lemma {:induction false} CrossAntisymmetric(m: Metric, a: Vec, b: Vec)
    requires m.J != 0.0
    ensures !CrossAt(m, a, b).covariant
    ensures CrossAt(m, a, b) == Negated(CrossAt(m, b, a))
  {
    CrossComponentsAntisymmetric(m, AsCovariant(m, a), AsCovariant(m, b));
  }

  /** Swapping the operands of the component formula negates every component. */
  lemma {:induction false} CrossComponentsAntisymmetric(m: Metric, l: Vec, r: Vec)
    requires m.J != 0.0
    ensures CrossComponents(m, l, r) == Negated(CrossComponents(m, r, l))
  {
    NegatedQuotient(l.y * r.z - l.z * r.y, m.J);
    NegatedQuotient(l.z * r.x - l.x * r.z, m.J);
    NegatedQuotient(l.x * r.y - l.y * r.x, m.J);
  }

  lemma {:induction false} NegatedQuotient(u: real, d: real)
    requires d != 0.0
    ensures u / d == ((u * -1.0) / d) * -1.0
  {
  }

  /** Three quotients over a common denominator add up over that denominator. */
  lemma {:induction false} QuotientSum(u: real, v: real, w: real, a: real, b: real, c: real, d: real)
    requires d != 0.0
    ensures (u / d) * a + (v / d) * b + (w / d) * c == (u * a + v * b + w * c) / d
  {
    assert (u / d) * a == (u * a) / d;
    assert (v / d) * b == (v * b) / d;
    assert (w / d) * c == (w * c) / d;
  }

  /** The component formula for l x r is orthogonal to the covariant l. */
  lemma {:induction false} CrossComponentsOrthogonal(m: Metric, l: Vec, r: Vec)
    requires m.J != 0.0 && l.covariant
    ensures DotAt(m, CrossComponents(m, l, r), l) == 0.0
  {
    var u, v, w := l.y * r.z - l.z * r.y, l.z * r.x - l.x * r.z, l.x * r.y - l.y * r.x;
    QuotientSum(u, v, w, l.x, l.y, l.z, m.J);
    assert u * l.x + v * l.y + w * l.z == 0.0;
  }

  /** The component formula for l x r is orthogonal to the covariant r. */
  lemma {:induction false} CrossComponentsOrthogonalRight(m: Metric, l: Vec, r: Vec)
    requires m.J != 0.0 && r.covariant
    ensures DotAt(m, CrossComponents(m, l, r), r) == 0.0
  {
    var u, v, w := l.y * r.z - l.z * r.y, l.z * r.x - l.x * r.z, l.x * r.y - l.y * r.x;
    QuotientSum(u, v, w, r.x, r.y, r.z, m.J);
    assert u * r.x + v * r.y + w * r.z == 0.0;
  }

  /** The cross product is orthogonal to both of its operands. */
  lemma {:induction false} CrossOrthogonal(m: Metric, a: Vec, b: Vec)
    requires m.J != 0.0
    ensures DotAt(m, CrossAt(m, a, b), AsCovariant(m, a)) == 0.0
    ensures DotAt(m, CrossAt(m, a, b), AsCovariant(m, b)) == 0.0
  {
    CrossComponentsOrthogonal(m, AsCovariant(m, a), AsCovariant(m, b));
    CrossComponentsOrthogonalRight(m, AsCovariant(m, a), AsCovariant(m, b));
  }

  /** With the identity metric and J = 1, covariant unit x cross unit y is contravariant unit z. */
  lemma {:induction false} CrossOfUnitVectors()
    ensures var id := Metric(1.0, 1.0, 1.0, 0.0, 0.0, 0.0, 1.0, 1.0, 1.0, 0.0, 0.0, 0.0, 1.0);
            CrossAt(id, Vec(1.0, 0.0, 0.0, true), Vec(0.0, 1.0, 0.0, true)) == Vec(0.0, 0.0, 1.0, false)
  {
  }

  /** The dot product is symmetric in its operands. */
  lemma {:induction false} DotSymmetric(m: Metric, a: Vec, b: Vec)
    ensures DotAt(m, a, b) == DotAt(m, b, a)
  {
  }

  /** Between different bases the dot product uses no metric at all. */
  lemma {:induction false} DotMixedMetricFree(m1: Metric, m2: Metric, a: Vec, b: Vec)
    requires a.covariant != b.covariant
    ensures DotAt(m1, a, b) == DotAt(m2, a, b) == a.x * b.x + a.y * b.y + a.z * b.z
  {
  }

  /**
   * In a shared basis, the dot product with the doubled off-diagonal terms is the
   * symmetric bilinear form of the metric: it equals the metric-free product after
   * converting the left operand to the other basis.
   */
  lemma {:induction false} DotSharedBasisIsBilinearForm(m: Metric, a: Vec, b: Vec)
    requires a.covariant == b.covariant
    ensures a.covariant ==> DotAt(m, a, b) == DotAt(m, Raise(m, a), b)
    ensures !a.covariant ==> DotAt(m, a, b) == DotAt(m, Lower(m, a), b)
  {
    if a.covariant {
      var r := Raise(m, a);
      assert DotAt(m, r, b) == r.x * b.x + r.y * b.y + r.z * b.z;
    } else {
      var l := Lower(m, a);
      assert DotAt(m, l, b) == l.x * b.x + l.y * b.y + l.z * b.z;
    }
  }

  /** Once the left operand is in the right operand's basis, `+=` adds componentwise. */
  lemma {:induction false} SumOfAligned(m: Metric, a: Vec, b: Vec, l: Vec)
    requires l == InBasis(m, a, b.covariant)
    ensures Sum(m, a, b) == Vec(l.x + b.x, l.y + b.y, l.z + b.z, b.covariant)
  {
  }

  /** Once the left operand is in the right operand's basis, `-=` subtracts componentwise. */
  lemma {:induction false} DifferenceOfAligned(m: Metric, a: Vec, b: Vec, l: Vec)
    requires l == InBasis(m, a, b.covariant)
    ensures Difference(m, a, b) == Vec(l.x - b.x, l.y - b.y, l.z - b.z, b.covariant)
  {
  }

  /** The cross product converts both operands to covariant components, so converting them first changes nothing. */
  lemma {:induction false} CrossOfConverted(m: Metric, a: Vec, b: Vec)
    requires m.J != 0.0
    ensures CrossAt(m, AsCovariant(m, a), AsCovariant(m, b)) == CrossAt(m, a, b)
  {
    var l, r := AsCovariant(m, a), AsCovariant(m, b);
    assert AsCovariant(m, l) == l && AsCovariant(m, r) == r;
  }

  // ---------------------------------------------------------------------
  // The Vector2D class
  // ---------------------------------------------------------------------

  class Vector2D {
    var x: Field2D
    var y: Field2D
    var z: Field2D
    var covariant: bool

    /** `Vector2D()`: covariant, components not yet allocated. */
    constructor ()
      ensures x == map[] && y == map[] && z == map[] && covariant
    {
      x, y, z := map[], map[], map[];
      covariant := true;
    }

    /** `Vector2D(const Vector2D &f)`: `*this = f`. */
    constructor Copy(f: Vector2D)
      ensures x == f.x && y == f.y && z == f.z && covariant == f.covariant
    {
      x, y, z := f.x, f.y, f.z;
      covariant := f.covariant;
    }

    /** All three components are allocated on the whole mesh. */
    ghost predicate Valid(g: Geometry)
      reads this
    {
      x.Keys == g.metric.Keys && y.Keys == g.metric.Keys && z.Keys == g.metric.Keys
    }

    /** The vector at one mesh point. */
    function At(p: Point): Vec
      reads this
      requires p in x && p in y && p in z
    {
      Vec(x[p], y[p], z[p], covariant)
    }

    method ToCovariant(g: Geometry)
      requires Valid(g)
      modifies this
      ensures Valid(g) && covariant
      ensures forall p :: p in g.metric ==> At(p) == AsCovariant(g.metric[p], old(At(p)))
    {
      if !covariant {
        // multiply by g_{ij}
        var gx := map p | p in x.Keys :: Lower(g.metric[p], At(p)).x;
        var gy := map p | p in x.Keys :: Lower(g.metric[p], At(p)).y;
        var gz := map p | p in x.Keys :: Lower(g.metric[p], At(p)).z;
        x, y, z := gx, gy, gz;
        covariant := true;
      }
    }

    method ToContravariant(g: Geometry)
      requires Valid(g)
      modifies this
      ensures Valid(g) && !covariant
      ensures forall p :: p in g.metric ==> At(p) == AsContravariant(g.metric[p], old(At(p)))
    {
      if covariant {
        // multiply by g^{ij}
        var gx := map p | p in x.Keys :: Raise(g.metric[p], At(p)).x;
        var gy := map p | p in x.Keys :: Raise(g.metric[p], At(p)).y;
        var gz := map p | p in x.Keys :: Raise(g.metric[p], At(p)).z;
        x, y, z := gx, gy, gz;
        covariant := false;
      }
    }

    /** `operator=(const Vector2D &rhs)`: copies the components and the basis flag. */
    method Assign(rhs: Vector2D)
      modifies this
      ensures x == old(rhs.x) && y == old(rhs.y) && z == old(rhs.z) && covariant == old(rhs.covariant)
    {
      x, y, z := rhs.x, rhs.y, rhs.z;
      covariant := rhs.covariant;
    }

    /** `operator=(const real val)`: every component of every point becomes val; the basis is kept. */
    method AssignScalar(g: Geometry, val: real) returns (r: real)
      modifies this
      ensures r == val && Valid(g) && covariant == old(covariant)
      ensures forall p :: p in g.metric ==> At(p) == Vec(val, val, val, covariant)
    {
      x := map p | p in g.metric :: val;
      y := map p | p in g.metric :: val;
      z := map p | p in g.metric :: val;
      r := val;
    }

    /** Bring the components into the requested basis, as `+=` and `-=` do with the left operand. */
    method Align(g: Geometry, toCovariant: bool)
      requires Valid(g)
      modifies this
      ensures Valid(g) && covariant == toCovariant
      ensures forall p :: p in g.metric ==>
                Vec(x[p], y[p], z[p], toCovariant) == InBasis(g.metric[p], old(At(p)), toCovariant)
    {
      if toCovariant {
        ToCovariant(g);
      } else {
        ToContravariant(g);
      }
    }

    /** Componentwise `x += rx`, `y += ry`, `z += rz`. */
    method AddComponents(g: Geometry, rx: Field2D, ry: Field2D, rz: Field2D)
      requires Valid(g) && rx.Keys == g.metric.Keys && ry.Keys == g.metric.Keys && rz.Keys == g.metric.Keys
      modifies this
      ensures Valid(g) && covariant == old(covariant)
      ensures forall p :: p in g.metric ==> At(p) == Vec(old(x[p]) + rx[p], old(y[p]) + ry[p], old(z[p]) + rz[p], covariant)
    {
      var ax, ay, az := x, y, z;
      x := map p | p in ax.Keys :: ax[p] + rx[p];
      y := map p | p in ax.Keys :: ay[p] + ry[p];
      z := map p | p in ax.Keys :: az[p] + rz[p];
    }

    /** Componentwise `x -= rx`, `y -= ry`, `z -= rz`. */
    method SubtractComponents(g: Geometry, rx: Field2D, ry: Field2D, rz: Field2D)
      requires Valid(g) && rx.Keys == g.metric.Keys && ry.Keys == g.metric.Keys && rz.Keys == g.metric.Keys
      modifies this
      ensures Valid(g) && covariant == old(covariant)
      ensures forall p :: p in g.metric ==> At(p) == Vec(old(x[p]) - rx[p], old(y[p]) - ry[p], old(z[p]) - rz[p], covariant)
    {
      var ax, ay, az := x, y, z;
      x := map p | p in ax.Keys :: ax[p] - rx[p];
      y := map p | p in ax.Keys :: ay[p] - ry[p];
      z := map p | p in ax.Keys :: az[p] - rz[p];
    }

    /** `operator+=`: align to rhs's basis, then add componentwise. */
    method AddAssign(g: Geometry, rhs: Vector2D)
      requires Valid(g) && rhs.Valid(g)
      modifies this
      ensures Valid(g)
      ensures covariant == old(rhs.covariant)
      ensures forall p :: p in g.metric ==> At(p) == Sum(g.metric[p], old(At(p)), old(rhs.At(p)))
    {
      // rhs's components, read before this is aligned (the same values even when rhs is this)
      var rx, ry, rz, rcov := rhs.x, rhs.y, rhs.z, rhs.covariant;
      Align(g, rcov);
      ghost var ax, ay, az := x, y, z;
      // both operands now share rhs's basis
      AddComponents(g, rx, ry, rz);
      forall p | p in g.metric
        ensures At(p) == Sum(g.metric[p], old(At(p)), old(rhs.At(p)))
      {
        assert old(rhs.At(p)) == Vec(rx[p], ry[p], rz[p], rcov);
        SumOfAligned(g.metric[p], old(At(p)), old(rhs.At(p)), Vec(ax[p], ay[p], az[p], rcov));
      }
    }

    /** `operator-=`: align to rhs's basis, then subtract componentwise. */
    method SubAssign(g: Geometry, rhs: Vector2D)
      requires Valid(g) && rhs.Valid(g)
      modifies this
      ensures Valid(g)
      ensures covariant == old(rhs.covariant)
      ensures forall p :: p in g.metric ==> At(p) == Difference(g.metric[p], old(At(p)), old(rhs.At(p)))
    {
      // rhs's components, read before this is aligned (the same values even when rhs is this)
      var rx, ry, rz, rcov := rhs.x, rhs.y, rhs.z, rhs.covariant;
      Align(g, rcov);
      ghost var ax, ay, az := x, y, z;
      // both operands now share rhs's basis
      SubtractComponents(g, rx, ry, rz);
      forall p | p in g.metric
        ensures At(p) == Difference(g.metric[p], old(At(p)), old(rhs.At(p)))
      {
        assert old(rhs.At(p)) == Vec(rx[p], ry[p], rz[p], rcov);
        DifferenceOfAligned(g.metric[p], old(At(p)), old(rhs.At(p)), Vec(ax[p], ay[p], az[p], rcov));
      }
    }

    /** `operator*=(const real rhs)` */
    method MulAssign(g: Geometry, rhs: real)
      requires Valid(g)
      modifies this
      ensures Valid(g) && covariant == old(covariant)
      ensures forall p :: p in g.metric ==> At(p) == Scaled(old(At(p)), rhs)
    {
      var nx := map p | p in x.Keys :: Scaled(At(p), rhs).x;
      var ny := map p | p in x.Keys :: Scaled(At(p), rhs).y;
      var nz := map p | p in x.Keys :: Scaled(At(p), rhs).z;
      x, y, z := nx, ny, nz;
    }

    /** `operator*=(const Field2D &rhs)`: pointwise scaling by a 2D field. */
    method MulAssignField(g: Geometry, rhs: Field2D)
      requires Valid(g) && rhs.Keys == g.metric.Keys
      modifies this
      ensures Valid(g) && covariant == old(covariant)
      ensures forall p :: p in g.metric ==> At(p) == Scaled(old(At(p)), rhs[p])
    {
      var nx := map p | p in x.Keys :: Scaled(At(p), rhs[p]).x;
      var ny := map p | p in x.Keys :: Scaled(At(p), rhs[p]).y;
      var nz := map p | p in x.Keys :: Scaled(At(p), rhs[p]).z;
      x, y, z := nx, ny, nz;
    }

    /** `operator/=(const real rhs)` */
    method DivAssign(g: Geometry, rhs: real)
      requires Valid(g) && rhs != 0.0
      modifies this
      ensures Valid(g) && covariant == old(covariant)
      ensures forall p :: p in g.metric ==> At(p) == Divided(old(At(p)), rhs)
    {
      var nx := map p | p in x.Keys :: Divided(At(p), rhs).x;
      var ny := map p | p in x.Keys :: Divided(At(p), rhs).y;
      var nz := map p | p in x.Keys :: Divided(At(p), rhs).z;
      x, y, z := nx, ny, nz;
    }

    /** `operator/=(const Field2D &rhs)`: pointwise division by a nonzero 2D field. */
    method DivAssignField(g: Geometry, rhs: Field2D)
      requires Valid(g) && rhs.Keys == g.metric.Keys
      requires forall p :: p in rhs ==> rhs[p] != 0.0
      modifies this
      ensures Valid(g) && covariant == old(covariant)
      ensures forall p :: p in g.metric ==> At(p) == Divided(old(At(p)), rhs[p])
    {
      var nx := map p | p in x.Keys :: Divided(At(p), rhs[p]).x;
      var ny := map p | p in x.Keys :: Divided(At(p), rhs[p]).y;
      var nz := map p | p in x.Keys :: Divided(At(p), rhs[p]).z;
      x, y, z := nx, ny, nz;
    }

    /** The contravariant cross product of two covariant vectors, as a new vector. */
    method CrossOfCovariant(g: Geometry, rco: Vector2D) returns (result: Vector2D)
      requires Valid(g) && rco.Valid(g) && covariant && rco.covariant && g.JacobianNonzero()
      ensures fresh(result) && result.Valid(g) && !result.covariant
      ensures forall p :: p in g.metric ==> result.At(p) == CrossAt(g.metric[p], At(p), rco.At(p))
    {
      result := new Vector2D();
      result.x := map p | p in x.Keys :: CrossAt(g.metric[p], At(p), rco.At(p)).x;
      result.y := map p | p in x.Keys :: CrossAt(g.metric[p], At(p), rco.At(p)).y;
      result.z := map p | p in x.Keys :: CrossAt(g.metric[p], At(p), rco.At(p)).z;
      result.covariant := false;
    }

    /** `operator^=`: the cross product from covariant copies of both operands; the result is contravariant. */
    method CrossAssign(g: Geometry, rhs: Vector2D)
      requires Valid(g) && rhs.Valid(g) && g.JacobianNonzero()
      modifies this
      ensures Valid(g) && !covariant
      ensures forall p :: p in g.metric ==> At(p) == CrossAt(g.metric[p], old(At(p)), old(rhs.At(p)))
    {
      var rco := new Vector2D.Copy(rhs);
      rco.ToCovariant(g);
      ToCovariant(g);
      var result := CrossOfCovariant(g, rco);
      Assign(result);
      forall p | p in g.metric
        ensures At(p) == CrossAt(g.metric[p], old(At(p)), old(rhs.At(p)))
      {
        CrossOfConverted(g.metric[p], old(At(p)), old(rhs.At(p)));
      }
    }

    /** `operator*(const Vector2D &rhs)`: the dot product, a 2D field. */
    function Dot(g: Geometry, rhs: Vector2D): (r: Field2D)
      reads this, rhs
      requires Valid(g) && rhs.Valid(g)
      ensures r.Keys == g.metric.Keys
      ensures forall p :: p in r ==> r[p] == DotAt(g.metric[p], At(p), rhs.At(p))
    {
      map p | p in g.metric :: DotAt(g.metric[p], At(p), rhs.At(p))
    }

    /** `operator-()`: a negated copy in the same basis. */
    method Negate(g: Geometry) returns (result: Vector2D)
      requires Valid(g)
      ensures fresh(result) && result.Valid(g)
      ensures forall p :: p in g.metric ==> result.At(p) == Negated(At(p))
    {
      result := new Vector2D.Copy(this);
      result.MulAssign(g, -1.0);
    }

    /** `operator+(const Vector2D &rhs)`: copy, then `+=`. */
    method Plus(g: Geometry, rhs: Vector2D) returns (result: Vector2D)
      requires Valid(g) && rhs.Valid(g)
      ensures fresh(result) && result.Valid(g)
      ensures forall p :: p in g.metric ==> result.At(p) == Sum(g.metric[p], At(p), rhs.At(p))
    {
      result := new Vector2D.Copy(this);
      result.AddAssign(g, rhs);
    }

    /** `operator-(const Vector2D &rhs)`: copy, then `-=`. */
    method Minus(g: Geometry, rhs: Vector2D) returns (result: Vector2D)
      requires Valid(g) && rhs.Valid(g)
      ensures fresh(result) && result.Valid(g)
      ensures forall p :: p in g.metric ==> result.At(p) == Difference(g.metric[p], At(p), rhs.At(p))
    {
      result := new Vector2D.Copy(this);
      result.SubAssign(g, rhs);
    }

    /** `operator*(const real rhs)`: copy, then `*=`. */
    method Times(g: Geometry, rhs: real) returns (result: Vector2D)
      requires Valid(g)
      ensures fresh(result) && result.Valid(g)
      ensures forall p :: p in g.metric ==> result.At(p) == Scaled(At(p), rhs)
    {
      result := new Vector2D.Copy(this);
      result.MulAssign(g, rhs);
    }

    /** `operator*(const Field2D &rhs)`: copy, then `*=`. */
    method TimesField(g: Geometry, rhs: Field2D) returns (result: Vector2D)
      requires Valid(g) && rhs.Keys == g.metric.Keys
      ensures fresh(result) && result.Valid(g)
      ensures forall p :: p in g.metric ==> result.At(p) == Scaled(At(p), rhs[p])
    {
      result := new Vector2D.Copy(this);
      result.MulAssignField(g, rhs);
    }

    /** `operator/(const real rhs)`: copy, then `/=`. */
    method Over(g: Geometry, rhs: real) returns (result: Vector2D)
      requires Valid(g) && rhs != 0.0
      ensures fresh(result) && result.Valid(g)
      ensures forall p :: p in g.metric ==> result.At(p) == Divided(At(p), rhs)
    {
      result := new Vector2D.Copy(this);
      result.DivAssign(g, rhs);
    }

    /** `operator/(const Field2D &rhs)`: copy, then `/=`. */
    method OverField(g: Geometry, rhs: Field2D) returns (result: Vector2D)
      requires Valid(g) && rhs.Keys == g.metric.Keys
      requires forall p :: p in rhs ==> rhs[p] != 0.0
      ensures fresh(result) && result.Valid(g)
      ensures forall p :: p in g.metric ==> result.At(p) == Divided(At(p), rhs[p])
    {
      result := new Vector2D.Copy(this);
      result.DivAssignField(g, rhs);
    }

    /** `operator^(const Vector2D &rhs)`: copy, then `^=`. */
    method Cross(g: Geometry, rhs: Vector2D) returns (result: Vector2D)
      requires Valid(g) && rhs.Valid(g) && g.JacobianNonzero()
      ensures fresh(result) && result.Valid(g)
      ensures forall p :: p in g.metric ==> result.At(p) == CrossAt(g.metric[p], At(p), rhs.At(p))
    {
      result := new Vector2D.Copy(this);
      result.CrossAssign(g, rhs);
    }

    /**
     * `getData(jx, jy, jz, real *rptr)`: writes the three components at (jx, jy)
     * to rptr[off..off+3] and returns 3. The range check admits jx <= ncx and jy <= ncy;
     * jz is checked but not used.
     */
    method GetData(g: Geometry, jx: int, jy: int, jz: int, rptr: array<real>, off: nat) returns (n: int)
      requires g.Valid() && Valid(g)
      requires 0 <= jx <= g.ncx && 0 <= jy <= g.ncy && 0 <= jz < g.ncz
      requires off + 3 <= rptr.Length
      modifies rptr
      ensures n == 3
      ensures rptr[off] == x[(jx, jy)] && rptr[off + 1] == y[(jx, jy)] && rptr[off + 2] == z[(jx, jy)]
      ensures forall k :: 0 <= k < rptr.Length && !(off <= k < off + 3) ==> rptr[k] == old(rptr[k])
    {
      rptr[off] := x[(jx, jy)];
      rptr[off + 1] := y[(jx, jy)];
      rptr[off + 2] := z[(jx, jy)];
      n := 3;
    }

    /**
     * `setData(jx, jy, jz, real *rptr)`: reads three components from rptr[off..off+3]
     * into (jx, jy) and returns 3; every other point and the basis flag are unchanged.
     */
    method SetData(g: Geometry, jx: int, jy: int, jz: int, rptr: array<real>, off: nat) returns (n: int)
      requires g.Valid() && Valid(g)
      requires 0 <= jx <= g.ncx && 0 <= jy <= g.ncy && 0 <= jz < g.ncz
      requires off + 3 <= rptr.Length
      modifies this
      ensures n == 3 && Valid(g) && covariant == old(covariant)
      ensures At((jx, jy)) == Vec(rptr[off], rptr[off + 1], rptr[off + 2], covariant)
      ensures forall p :: p in g.metric && p != (jx, jy) ==> At(p) == old(At(p))
    {
      x := x[(jx, jy) := rptr[off]];
      y := y[(jx, jy) := rptr[off + 1]];
      z := z[(jx, jy) := rptr[off + 2]];
      n := 3;
    }
  }

  /**
   * `setData` followed by `getData` at the same point: the three values read
   * in come back out, and both calls report 3.
   */
  method SetThenGet(g: Geometry, v: Vector2D, jx: int, jy: int, jz: int,
                    src: array<real>, dst: array<real>, off: nat) returns (nset: int, nget: int)
    requires g.Valid() && v.Valid(g)
    requires 0 <= jx <= g.ncx && 0 <= jy <= g.ncy && 0 <= jz < g.ncz
    requires off + 3 <= src.Length && off + 3 <= dst.Length
    modifies v, dst
    ensures nset == 3 && nget == 3
    ensures dst[off..off + 3] == old(src[off..off + 3])
  {
    nset := v.SetData(g, jx, jy, jz, src, off);
    nget := v.GetData(g, jx, jy, jz, dst, off);
  }

  /**
   * `getData` followed by `setData` from the same buffer: the vector is left
   * exactly as it was.
   */
  method GetThenSet(g: Geometry, v: Vector2D, jx: int, jy: int, jz: int,
                    buf: array<real>, off: nat) returns (nget: int, nset: int)
    requires g.Valid() && v.Valid(g)
    requires 0 <= jx <= g.ncx && 0 <= jy <= g.ncy && 0 <= jz < g.ncz
    requires off + 3 <= buf.Length
    modifies v, buf
    ensures nget == 3 && nset == 3
    ensures v.x == old(v.x) && v.y == old(v.y) && v.z == old(v.z) && v.covariant == old(v.covariant)
  {
    nget := v.GetData(g, jx, jy, jz, buf, off);
    nset := v.SetData(g, jx, jy, jz, buf, off);
  }

  /** `operator*(const real lhs, const Vector2D &rhs)`: `rhs * lhs`. */
  method ScalarTimes(g: Geometry, lhs: real, rhs: Vector2D) returns (result: Vector2D)
    requires rhs.Valid(g)
    ensures fresh(result) && result.Valid(g)
    ensures forall p :: p in g.metric ==> result.At(p) == Scaled(rhs.At(p), lhs)
  {
    result := rhs.Times(g, lhs);
  }

  /** `operator*(const Field2D &lhs, const Vector2D &rhs)`: `rhs * lhs`. */
  method FieldTimes(g: Geometry, lhs: Field2D, rhs: Vector2D) returns (result: Vector2D)
    requires rhs.Valid(g) && lhs.Keys == g.metric.Keys
    ensures fresh(result) && result.Valid(g)
    ensures forall p :: p in g.metric ==> result.At(p) == Scaled(rhs.At(p), lhs[p])
  {
    result := rhs.TimesField(g, lhs);
  }
}
