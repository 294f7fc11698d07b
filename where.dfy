/**
 * Elementwise selection between two sources, driven by the sign of a 2D test
 * field: `where(test, gt0, le0)` is `gt0` where `test > 0` and `le0` elsewhere.
 * Field data are the raw arrays over the local mesh (x, y and, for 3D fields, z).
 */
module Where {

  /** The local mesh sizes that every field is allocated with. */
  datatype Mesh = Mesh(ngx: nat, ngy: nat, ngz: nat)

  /** One source operand: a 3D field, a 2D field broadcast along z, or a scalar. */
  datatype Operand = Field3(data3: array3<real>) | Field2(data2: array2<real>) | Scalar(value: real)
  {
    function Footprint(): set<object>
    {
      match this
      case Field3(a) => {a}
      case Field2(a) => {a}
      case Scalar(_) => {}
    }

    /** The operand lives on mesh m. */
    predicate OnMesh(m: Mesh)
    {
      match this
      case Field3(a) => a.Length0 == m.ngx && a.Length1 == m.ngy && a.Length2 == m.ngz
      case Field2(a) => a.Length0 == m.ngx && a.Length1 == m.ngy
      case Scalar(_) => true
    }

    /** The operand's value at (jx, jy, jz). */
    function At(m: Mesh, jx: nat, jy: nat, jz: nat): real
      requires OnMesh(m) && jx < m.ngx && jy < m.ngy && jz < m.ngz
      reads Footprint()
    {
      match this
      case Field3(a) => a[jx, jy, jz]
      case Field2(a) => a[jx, jy]
      case Scalar(v) => v
    }
  }

  /**
   * The loop shared by all overloads: allocate the result and fill every
   * (jx, jy, jz) from `gt0` when `test[jx][jy] > 0.0` and from `le0` otherwise.
   */
  method Select(m: Mesh, test: array2<real>, gt0: Operand, le0: Operand) returns (result: array3<real>)
    requires test.Length0 == m.ngx && test.Length1 == m.ngy
    requires gt0.OnMesh(m) && le0.OnMesh(m)
    ensures fresh(result)
    ensures result.Length0 == m.ngx && result.Length1 == m.ngy && result.Length2 == m.ngz
    ensures forall jx, jy, jz :: 0 <= jx < m.ngx && 0 <= jy < m.ngy && 0 <= jz < m.ngz ==>
              result[jx, jy, jz] == if test[jx, jy] > 0.0 then gt0.At(m, jx, jy, jz) else le0.At(m, jx, jy, jz)
  {
    result := new real[m.ngx, m.ngy, m.ngz];
    for jx := 0 to m.ngx
      invariant forall x, y, z :: 0 <= x < jx && 0 <= y < m.ngy && 0 <= z < m.ngz ==>
                  result[x, y, z] == if test[x, y] > 0.0 then gt0.At(m, x, y, z) else le0.At(m, x, y, z)
    {
      for jy := 0 to m.ngy
        invariant forall x, y, z :: 0 <= x < jx && 0 <= y < m.ngy && 0 <= z < m.ngz ==>
                    result[x, y, z] == if test[x, y] > 0.0 then gt0.At(m, x, y, z) else le0.At(m, x, y, z)
        invariant forall y, z :: 0 <= y < jy && 0 <= z < m.ngz ==>
                    result[jx, y, z] == if test[jx, y] > 0.0 then gt0.At(m, jx, y, z) else le0.At(m, jx, y, z)
      {
        if test[jx, jy] > 0.0 {
          for jz := 0 to m.ngz
            invariant forall x, y, z :: 0 <= x < jx && 0 <= y < m.ngy && 0 <= z < m.ngz ==>
                        result[x, y, z] == if test[x, y] > 0.0 then gt0.At(m, x, y, z) else le0.At(m, x, y, z)
            invariant forall y, z :: 0 <= y < jy && 0 <= z < m.ngz ==>
                        result[jx, y, z] == if test[jx, y] > 0.0 then gt0.At(m, jx, y, z) else le0.At(m, jx, y, z)
            invariant forall z :: 0 <= z < jz ==> result[jx, jy, z] == gt0.At(m, jx, jy, z)
          {
            result[jx, jy, jz] := gt0.At(m, jx, jy, jz);
          }
        } else {
          for jz := 0 to m.ngz
            invariant forall x, y, z :: 0 <= x < jx && 0 <= y < m.ngy && 0 <= z < m.ngz ==>
                        result[x, y, z] == if test[x, y] > 0.0 then gt0.At(m, x, y, z) else le0.At(m, x, y, z)
            invariant forall y, z :: 0 <= y < jy && 0 <= z < m.ngz ==>
                        result[jx, y, z] == if test[jx, y] > 0.0 then gt0.At(m, jx, y, z) else le0.At(m, jx, y, z)
            invariant forall z :: 0 <= z < jz ==> result[jx, jy, z] == le0.At(m, jx, jy, z)
          {
            result[jx, jy, jz] := le0.At(m, jx, jy, jz);
          }
        }
      }
    }
  }

  /** `where(Field2D test, Field3D gt0, Field3D le0)` */
  method Where3D3D(m: Mesh, test: array2<real>, gt0: array3<real>, le0: array3<real>) returns (result: array3<real>)
    requires test.Length0 == m.ngx && test.Length1 == m.ngy
    requires Field3(gt0).OnMesh(m) && Field3(le0).OnMesh(m)
    ensures fresh(result)
    ensures result.Length0 == m.ngx && result.Length1 == m.ngy && result.Length2 == m.ngz
    ensures forall jx, jy, jz :: 0 <= jx < m.ngx && 0 <= jy < m.ngy && 0 <= jz < m.ngz ==>
              result[jx, jy, jz] == if test[jx, jy] > 0.0 then gt0[jx, jy, jz] else le0[jx, jy, jz]
  {
    result := Select(m, test, Field3(gt0), Field3(le0));
  }

  /** `where(Field2D test, Field3D gt0, real le0)`: every non-positive test point takes the scalar. */
  method Where3DScalar(m: Mesh, test: array2<real>, gt0: array3<real>, le0: real) returns (result: array3<real>)
    requires test.Length0 == m.ngx && test.Length1 == m.ngy
    requires Field3(gt0).OnMesh(m)
    ensures fresh(result)
    ensures result.Length0 == m.ngx && result.Length1 == m.ngy && result.Length2 == m.ngz
    ensures forall jx, jy, jz :: 0 <= jx < m.ngx && 0 <= jy < m.ngy && 0 <= jz < m.ngz ==>
              result[jx, jy, jz] == if test[jx, jy] > 0.0 then gt0[jx, jy, jz] else le0
  {
    result := Select(m, test, Field3(gt0), Scalar(le0));
  }

  /** `where(Field2D test, real gt0, Field3D le0)`: every positive test point takes the scalar. */
  method WhereScalar3D(m: Mesh, test: array2<real>, gt0: real, le0: array3<real>) returns (result: array3<real>)
    requires test.Length0 == m.ngx && test.Length1 == m.ngy
    requires Field3(le0).OnMesh(m)
    ensures fresh(result)
    ensures result.Length0 == m.ngx && result.Length1 == m.ngy && result.Length2 == m.ngz
    ensures forall jx, jy, jz :: 0 <= jx < m.ngx && 0 <= jy < m.ngy && 0 <= jz < m.ngz ==>
              result[jx, jy, jz] == if test[jx, jy] > 0.0 then gt0 else le0[jx, jy, jz]
  {
    result := Select(m, test, Scalar(gt0), Field3(le0));
  }

  /** `where(Field2D test, Field3D gt0, Field2D le0)`: the 2D source is broadcast along z. */
  method Where3D2D(m: Mesh, test: array2<real>, gt0: array3<real>, le0: array2<real>) returns (result: array3<real>)
    requires test.Length0 == m.ngx && test.Length1 == m.ngy
    requires Field3(gt0).OnMesh(m) && Field2(le0).OnMesh(m)
    ensures fresh(result)
    ensures result.Length0 == m.ngx && result.Length1 == m.ngy && result.Length2 == m.ngz
    ensures forall jx, jy, jz :: 0 <= jx < m.ngx && 0 <= jy < m.ngy && 0 <= jz < m.ngz ==>
              result[jx, jy, jz] == if test[jx, jy] > 0.0 then gt0[jx, jy, jz] else le0[jx, jy]
  {
    result := Select(m, test, Field3(gt0), Field2(le0));
  }

  /** `where(Field2D test, Field2D gt0, Field3D le0)`: the 2D source is broadcast along z. */
  method Where2D3D(m: Mesh, test: array2<real>, gt0: array2<real>, le0: array3<real>) returns (result: array3<real>)
    requires test.Length0 == m.ngx && test.Length1 == m.ngy
    requires Field2(gt0).OnMesh(m) && Field3(le0).OnMesh(m)
    ensures fresh(result)
    ensures result.Length0 == m.ngx && result.Length1 == m.ngy && result.Length2 == m.ngz
    ensures forall jx, jy, jz :: 0 <= jx < m.ngx && 0 <= jy < m.ngy && 0 <= jz < m.ngz ==>
              result[jx, jy, jz] == if test[jx, jy] > 0.0 then gt0[jx, jy] else le0[jx, jy, jz]
  {
    result := Select(m, test, Field2(gt0), Field3(le0));
  }
}
