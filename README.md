# BOUT++ solver state packing, field selection, 2D vectors and utilities

This project models four parts of BOUT++ 0.8, a plasma fluid simulation code, and proves their properties in Dafny.

**The solver's state packer** (`cvode_solver.cpp`):
- The time integrator sees the simulation as one flat vector of reals.
- `loop_vars` visits the evolved (jx, jy) points of the local subdomain in a fixed order:
  - the inner-x ghost rows, when there is no inner neighbour;
  - column by column, the lower-y ghosts, the interior rows and the upper-y ghosts, each ghost run only when the y neighbour on that side is -1;
  - the outer-x ghost rows.
- At each point, `loop_vars_op` copies every registered 2D variable, then, for each z index, every 3D variable, into or out of the vector. A running offset `p` advances as it goes.
- `load_vars` allocates the fields, loads them, and resets the vectors' basis flags.
- `save_vars` refuses to run when a field has no data. Otherwise it puts vectors in their declared basis and packs the values.
- `save_derivs` packs the time derivatives, after interpolating each 3D derivative to its variable's cell location.

**Elementwise selection** (`where.cpp`): every (jx, jy, jz) of the result comes from one source when `test[jx][jy] > 0.0`, and from the other otherwise.

**Axisymmetric vectors** (`vector2d.cpp`): three 2D component fields and a covariant/contravariant flag, with:
- basis changes through the metric;
- compound operators that align the left operand to the right one's basis;
- scaling that keeps the basis;
- a cross product that is always contravariant;
- a dot product that depends on whether the two bases agree.

**Utilities** (`utils.cpp`): `is_pow2`, `ROUND`, `SWAP`, `copy_string`, `strconcat`, and the offset layout of the contiguous `rmatrix`/`imatrix`/`r3tensor` blocks.

**Files**
- `traversal.dfy`: the visiting order as a sequence of points, with its membership and ordering.
- `slots.dfy`: the per-point layout of the values.
- `packed_state.dfy`: the variables, and what packing and loading mean (`Pack`, `LoadAll`), with the round-trip lemmas.
- `placement.dfy` and `transfer.dfy`: the buffer offset of each visited point, and what carrying out the copies does.
- `packer.dfy`: the class `Solver` whose loop methods are proved against those functions.
- `where.dfy`, `vector2d.dfy`, `utils.dfy`: the other three source files.
- `wrappers.dfy`: an `Option` type.

## Model

| member | source | states |
|---|---|---|
| Traversal.PointHas | BOUT++/SRC/solver/cvode_solver.cpp:459-501 | a point is in the visiting order iff the region-by-region reference definition `Visited` says it is evolved |
| Traversal.PointsMembers | BOUT++/SRC/solver/cvode_solver.cpp:459-501 | the visited set is exactly the reference set, for every point |
| Traversal.XGhostsVisited | BOUT++/SRC/solver/cvode_solver.cpp:465-469 | inner-x ghost rows (jx < MXG, interior jy) are visited iff IDATA_DEST == -1; outer-x ghost rows iff ODATA_DEST == -1 |
| Traversal.YGhostsVisited | BOUT++/SRC/solver/cvode_solver.cpp:475-492 | in an interior column the lower-y ghost rows are visited iff the DDATA rule holds for jx, and the upper-y rows iff the UDATA rule holds |
| Traversal.XGhostSizes | BOUT++/SRC/solver/cvode_solver.cpp:465-469 | each x ghost region contributes MXG * MYSUB points when present and none otherwise |
| Traversal.ColumnParts | BOUT++/SRC/solver/cvode_solver.cpp:471-492 | a column is its lower ghosts (MYG rows or none), then MYSUB bulk rows from MYG, then its upper ghosts |
| Traversal.RunHas | BOUT++/SRC/solver/cvode_solver.cpp:481-484 | a run of the innermost loop holds exactly column jx, rows y0 .. y0 + n - 1 |
| Traversal.BlockHas | BOUT++/SRC/solver/cvode_solver.cpp:466-468 | a block of the x ghost loops holds exactly its columns and rows |
| Traversal.BlockLength | BOUT++/SRC/solver/cvode_solver.cpp:466-468 | a block of nx columns of ny rows has nx * ny points |
| Traversal.ColumnHas | BOUT++/SRC/solver/cvode_solver.cpp:471-492 | an interior column holds exactly its evolved rows |
| Traversal.ColumnsHas | BOUT++/SRC/solver/cvode_solver.cpp:471-493 | the first n interior columns hold exactly their evolved rows |
| Traversal.PointsInGrid | BOUT++/SRC/solver/cvode_solver.cpp:459-501 | every visited point lies in [0, MXSUB + 2 MXG) x [0, MYSUB + 2 MYG) |
| Traversal.PointsIncreasing | BOUT++/SRC/solver/cvode_solver.cpp:459-501 | the visiting order is strictly increasing in (jx, jy) |
| Traversal.PointsDistinct | BOUT++/SRC/solver/cvode_solver.cpp:459-501 | no point is visited twice |
| SlotLayout.SlotsLayout | BOUT++/SRC/solver/cvode_solver.cpp:396-410 | a point's layout has n2d + ncz * n3d entries; entry k < n2d is 2D variable k, and every entry k sits at its offset k and names a registered variable |
| SlotLayout.LayersLayout | BOUT++/SRC/solver/cvode_solver.cpp:402-410 | the 3D part holds 3D variable i at z index jz at position jz * n3d + i |
| SlotLayout.SlotAt3 | BOUT++/SRC/solver/cvode_solver.cpp:402-410 | 3D variable i at z index jz sits at offset n2d + jz * n3d + i of the point's values |
| SlotLayout.SlotsDistinct | BOUT++/SRC/solver/cvode_solver.cpp:396-410 | no value is copied twice within a point |
| SlotLayout.SlotsMembers | BOUT++/SRC/solver/cvode_solver.cpp:396-410 | the layout names every registered variable at every evolved z index, and nothing else |
| PackedState.WriteFrame | BOUT++/SRC/solver/cvode_solver.cpp:398 | storing one value changes only that variable at that point |
| PackedState.WriteHit | BOUT++/SRC/solver/cvode_solver.cpp:398 | a value stored into an allocated variable is read back |
| PackedState.LoadSlotsFrame | BOUT++/SRC/solver/cvode_solver.cpp:392-412 | loading one point leaves other points, unnamed slots and all derivatives as they were |
| PackedState.LoadSlotsHit | BOUT++/SRC/solver/cvode_solver.cpp:392-412 | after loading a point, each slot reads back the value loaded into it |
| PackedState.WriteSame | BOUT++/SRC/solver/cvode_solver.cpp:398 | storing back the value a variable already holds at a grid point changes nothing |
| PackedState.LoadSlotsSame | BOUT++/SRC/solver/cvode_solver.cpp:392-412 | loading the values a point already holds changes nothing |
| PackedState.LoadSlotsReadBack | BOUT++/SRC/solver/cvode_solver.cpp:392-432 | saving a point right after loading it gives back the loaded values |
| PackedState.PackLength | BOUT++/SRC/solver/cvode_solver.cpp:459-501 | packing n points takes n * width entries |
| PackedState.PackAt | BOUT++/SRC/solver/cvode_solver.cpp:413-432 | offset j * width + k of the packed vector holds slot k of the j-th visited point, so offsets are injective |
| PackedState.LoadAllShape | BOUT++/SRC/solver/cvode_solver.cpp:392-412 | loading keeps registrations, derivatives, locations and allocation |
| PackedState.LoadAllFrame | BOUT++/SRC/solver/cvode_solver.cpp:392-412 | loading leaves every unvisited point and every derivative untouched |
| PackedState.PackFrame | BOUT++/SRC/solver/cvode_solver.cpp:413-432 | packing reads nothing but the visited points |
| PackedState.PackThenLoad | BOUT++/SRC/solver/cvode_solver.cpp:392-432 | with fields allocated on the grid, loading a buffer that starts with the packed values gives back the variables |
| PackedState.LoadThenPack | BOUT++/SRC/solver/cvode_solver.cpp:392-432 | loading distinct points and packing them again gives back the buffer prefix |
| PackedState.PackDerivatives | BOUT++/SRC/solver/cvode_solver.cpp:434-454 | packing derivatives uses the same offsets as packing values, reading the other field |
| PackedState.LoadSlotsByLayers | BOUT++/SRC/solver/cvode_solver.cpp:392-412 | loading a point's layout is the 2D loop followed by the z loop of 3D loops |
| PackedState.ReadSlotsByLayers | BOUT++/SRC/solver/cvode_solver.cpp:413-432 | reading a point's layout is the 2D values followed by the 3D values layer by layer |
| PackedState.LoadLayersAll | BOUT++/SRC/solver/cvode_solver.cpp:402-410 | loading the 3D slots as one sequence equals loading them one z layer at a time |
| Placement.PlacedAt | BOUT++/SRC/solver/cvode_solver.cpp:459-501 | the k-th point of a sequence placed from offset p is copied at p + k * width |
| Placement.RunMovesIs | BOUT++/SRC/solver/cvode_solver.cpp:481-484 | an innermost loop places its run of points at consecutive blocks of width entries |
| Placement.BlockMovesIs | BOUT++/SRC/solver/cvode_solver.cpp:466-468 | an x ghost loop places its block of points at consecutive blocks |
| Placement.ColumnsMovesIs | BOUT++/SRC/solver/cvode_solver.cpp:471-493 | the column loop places the interior columns' points at consecutive blocks |
| Placement.ColumnMovesParts | BOUT++/SRC/solver/cvode_solver.cpp:475-492 | a column's three runs, each starting where the last ended, place the whole column |
| Placement.ExtentIs | BOUT++/SRC/solver/cvode_solver.cpp:459-501 | the final p equals the number of visited points times n2d + ncz * n3d |
| Placement.AllMovesIs | BOUT++/SRC/solver/cvode_solver.cpp:459-501 | the offsets loop_vars uses are those of the visiting order placed from 0 |
| Transfer.Step | BOUT++/SRC/solver/cvode_solver.cpp:382-456 | loading changes no buffer entry; saving changes no variable and no buffer entry outside [p, p + width) |
| Transfer.ProgressNext | BOUT++/SRC/solver/cvode_solver.cpp:459-501 | copying the next point at p = visited * width extends what has been loaded or packed by that point |
| Transfer.ApplyConcat | BOUT++/SRC/solver/cvode_solver.cpp:459-501 | doing the copies of two consecutive loops is doing the first, then the second |
| Transfer.ApplyMeaning | BOUT++/SRC/solver/cvode_solver.cpp:459-501 | copying a sequence of points placed from offset 0 loads exactly those points, or packs exactly them at the front of the buffer |
| Transfer.LoopVarsParts | BOUT++/SRC/solver/cvode_solver.cpp:464-500 | the inner-x loop, the column loop and the outer-x loop, each starting at the p the last one ended at, do all of loop_vars's copies |
| Transfer.AllMovesMeaning | BOUT++/SRC/solver/cvode_solver.cpp:459-501 | loop_vars's copies load exactly the visited points, or pack them in visiting order at the front of the buffer |
| StatePacker.Solver.Load2D | BOUT++/SRC/solver/cvode_solver.cpp:396-400 | advances p by n2d and stores udata[p + i] into 2D variable i at (jx, jy) |
| StatePacker.Solver.LoadLayer | BOUT++/SRC/solver/cvode_solver.cpp:405-409 | advances p by n3d and stores udata[p + i] into 3D variable i at (jx, jy, jz) |
| StatePacker.Solver.LoadLayers3D | BOUT++/SRC/solver/cvode_solver.cpp:402-410 | advances p by ncz * n3d and loads the 3D values layer by layer |
| StatePacker.Solver.LoadPoint | BOUT++/SRC/solver/cvode_solver.cpp:392-412 | advances p by the width and loads the point's whole layout from udata[p ..] |
| StatePacker.Solver.Save2D | BOUT++/SRC/solver/cvode_solver.cpp:417-421 | writes the 2D values (or derivatives) over udata[p .. p + n2d] and nothing else |
| StatePacker.Solver.SaveLayer | BOUT++/SRC/solver/cvode_solver.cpp:426-430 | writes one z layer of 3D values over udata[p .. p + n3d] and nothing else |
| StatePacker.Solver.SaveLayers3D | BOUT++/SRC/solver/cvode_solver.cpp:423-431 | writes every z layer in turn over udata[p .. p + ncz * n3d] and nothing else |
| StatePacker.Solver.SavePoint | BOUT++/SRC/solver/cvode_solver.cpp:413-454 | writes the point's whole layout, read from values or derivatives, over udata[p .. p + width] and nothing else |
| StatePacker.Solver.LoopVarsOp | BOUT++/SRC/solver/cvode_solver.cpp:382-456 | advances p by exactly n2d + ncz * n3d in every mode and does one Step |
| StatePacker.Solver.VisitRun | BOUT++/SRC/solver/cvode_solver.cpp:481-484 | one innermost y loop copies its run of points at consecutive offsets |
| StatePacker.Solver.VisitBlock | BOUT++/SRC/solver/cvode_solver.cpp:465-469 | an x ghost double loop copies its block of points at consecutive offsets |
| StatePacker.Solver.VisitColumn | BOUT++/SRC/solver/cvode_solver.cpp:473-492 | one interior column copies its lower ghosts if evolved, its bulk and its upper ghosts if evolved |
| StatePacker.Solver.VisitColumns | BOUT++/SRC/solver/cvode_solver.cpp:471-493 | the column loop copies the interior columns' points at consecutive offsets |
| StatePacker.Solver.LoopVars | BOUT++/SRC/solver/cvode_solver.cpp:459-501 | loading loads exactly the visited points and leaves udata unchanged; saving changes no variable, packs the visited points in order at the front of udata and leaves the rest |
| StatePacker.Allocate2 | BOUT++/SRC/solver/cvode_solver.cpp:508-509 | allocation gives data on the whole grid to an unallocated 2D field and keeps an allocated one |
| StatePacker.Allocate3 | BOUT++/SRC/solver/cvode_solver.cpp:510-513 | the same for a 3D field, keeping its location |
| StatePacker.AllocateAll | BOUT++/SRC/solver/cvode_solver.cpp:507-513 | afterwards every field has data and every 3D field is at its variable's location; derivatives are untouched |
| StatePacker.AllocateReady | BOUT++/SRC/solver/cvode_solver.cpp:507-513 | allocating fields that already cover the grid at their locations changes nothing |
| StatePacker.Solver.AllocateFields | BOUT++/SRC/solver/cvode_solver.cpp:507-513 | the allocation loops leave the variables as AllocateAll says |
| StatePacker.WithVarBasis | BOUT++/SRC/solver/cvode_solver.cpp:519-522 | each vector's value is marked as held in its declared basis, nothing else changes |
| StatePacker.WithDerivBasis | BOUT++/SRC/solver/cvode_solver.cpp:561-573 | each vector's derivative is put in its declared basis, nothing else changes |
| StatePacker.Rebase | BOUT++/SRC/solver/cvode_solver.cpp:519-522 | the basis loops give WithVarBasis, or WithDerivBasis for the derivatives |
| StatePacker.InterpolatedAtLocations | BOUT++/SRC/solver/cvode_solver.cpp:575-581 | with an interpolation that returns the location asked for, every derivative ends at its variable's location and values are untouched |
| StatePacker.Solver.InterpolateDerivs | BOUT++/SRC/solver/cvode_solver.cpp:575-581 | interpolates exactly the derivatives whose location differs from their variable's |
| StatePacker.Solver.MissingData | BOUT++/SRC/solver/cvode_solver.cpp:530-536 | reports true iff some registered 2D or 3D field has no data |
| StatePacker.Solver.LoadFrom | BOUT++/SRC/solver/cvode_solver.cpp:503-523 | allocates, loads every visited point from udata without writing it, and marks each vector's value in its declared basis |
| StatePacker.Solver.SaveTo | BOUT++/SRC/solver/cvode_solver.cpp:526-555 | returns 1 and changes nothing iff some field has no data; otherwise rebases the vectors, packs the visited points at the front of udata, keeps the rest and returns 0 |
| StatePacker.Solver.SaveDerivsTo | BOUT++/SRC/solver/cvode_solver.cpp:557-584 | with every derivative holding data (save_derivs dereferences them unchecked), rebases the derivatives, interpolates the 3D ones to their locations, keeps their data, and packs the derivatives of the visited points at the front of dudata |
| StatePacker.SaveThenLoad | BOUT++/SRC/solver/cvode_solver.cpp:503-555 | save_vars followed by load_vars on the same buffer leaves every variable unchanged |
| StatePacker.LoadThenSave | BOUT++/SRC/solver/cvode_solver.cpp:503-555 | load_vars followed by save_vars gives back the buffer |
| Where.Select | BOUT++/SRC/field/where.cpp:29-47 | a fresh result of the full mesh size; every (jx, jy, jz) takes gt0 where test[jx][jy] > 0.0 and le0 otherwise (0.0 included) |
| Where.Where3D3D | BOUT++/SRC/field/where.cpp:29-47 | the same with two 3D sources |
| Where.Where3DScalar | BOUT++/SRC/field/where.cpp:49-67 | every non-positive test point's column takes the scalar le0 |
| Where.WhereScalar3D | BOUT++/SRC/field/where.cpp:69-87 | every positive test point's column takes the scalar gt0 |
| Where.Where3D2D | BOUT++/SRC/field/where.cpp:89-107 | the 2D source le0 is broadcast along z |
| Where.Where2D3D | BOUT++/SRC/field/where.cpp:109-127 | the 2D source gt0 is broadcast along z |
| Vectors.AsCovariantIdempotent | BOUT++/SRC/field/vector2d.cpp:50-66 | to_covariant ends covariant, leaves covariant vectors alone and is idempotent |
| Vectors.AsContravariantIdempotent | BOUT++/SRC/field/vector2d.cpp:67-84 | to_contravariant ends contravariant, leaves contravariant vectors alone and is idempotent |
| Vectors.SumDifferenceBasis | BOUT++/SRC/field/vector2d.cpp:115-156 | += and -= leave the left operand in the right operand's basis, and act componentwise when the bases agree |
| Vectors.SumOfAligned | BOUT++/SRC/field/vector2d.cpp:115-128 | += adds the right operand's components to the left operand's aligned components |
| Vectors.DifferenceOfAligned | BOUT++/SRC/field/vector2d.cpp:143-156 | -= subtracts them from the aligned components |
| Vectors.SumThenDifference | BOUT++/SRC/field/vector2d.cpp:115-156 | -= b undoes += b, up to the basis change of the left operand |
| Vectors.DifferenceIsSumOfNegated | BOUT++/SRC/field/vector2d.cpp:132-156 | a -= b is a += (-b) |
| Vectors.ScaledThenDivided | BOUT++/SRC/field/vector2d.cpp:160-196 | scaling keeps the basis, and dividing by the same nonzero factor undoes it |
| Vectors.NegatedInvolution | BOUT++/SRC/field/vector2d.cpp:132-141 | unary minus keeps the basis and is an involution |
| Vectors.CrossAntisymmetric | BOUT++/SRC/field/vector2d.cpp:200-219 | a ^ b is contravariant and equals -(b ^ a) |
| Vectors.CrossComponentsAntisymmetric | BOUT++/SRC/field/vector2d.cpp:210-212 | swapping the operands of the component formula negates every component |
| Vectors.CrossComponentsOrthogonal | BOUT++/SRC/field/vector2d.cpp:210-212 | the formula's result has zero dot product with its covariant left operand |
| Vectors.CrossComponentsOrthogonalRight | BOUT++/SRC/field/vector2d.cpp:210-212 | the formula's result has zero dot product with its covariant right operand |
| Vectors.CrossOrthogonal | BOUT++/SRC/field/vector2d.cpp:200-219 | a ^ b has zero dot product with both operands |
| Vectors.CrossOfConverted | BOUT++/SRC/field/vector2d.cpp:204-207 | converting the operands to covariant first does not change the cross product |
| Vectors.CrossOfUnitVectors | BOUT++/SRC/field/vector2d.cpp:209-214 | with the identity metric, covariant x-hat ^ y-hat is contravariant z-hat |
| Vectors.DotSymmetric | BOUT++/SRC/field/vector2d.cpp:306-331 | the dot product is symmetric |
| Vectors.DotMixedMetricFree | BOUT++/SRC/field/vector2d.cpp:310-312 | between different bases the dot product is x*rx + y*ry + z*rz, whatever the metric |
| Vectors.DotSharedBasisIsBilinearForm | BOUT++/SRC/field/vector2d.cpp:313-328 | in a shared basis the dot product equals the metric-free product after raising (covariant) or lowering (contravariant) the left operand |
| Vectors.Vector2D.constructor | BOUT++/SRC/field/vector2d.cpp:35-38 | a new vector is covariant |
| Vectors.Vector2D.Copy | BOUT++/SRC/field/vector2d.cpp:40-43 | the copy constructor copies the components and the flag |
| Vectors.Vector2D.ToCovariant | BOUT++/SRC/field/vector2d.cpp:50-66 | every point becomes AsCovariant of its old value; the flag ends true |
| Vectors.Vector2D.ToContravariant | BOUT++/SRC/field/vector2d.cpp:67-84 | every point becomes AsContravariant of its old value; the flag ends false |
| Vectors.Vector2D.Assign | BOUT++/SRC/field/vector2d.cpp:93-102 | copies the components and the flag of rhs |
| Vectors.Vector2D.AssignScalar | BOUT++/SRC/field/vector2d.cpp:104-111 | every component at every point becomes val, the flag is kept, and val is returned |
| Vectors.Vector2D.Align | BOUT++/SRC/field/vector2d.cpp:117-121 | the components are brought into the requested basis |
| Vectors.Vector2D.AddComponents | BOUT++/SRC/field/vector2d.cpp:123-125 | componentwise addition, basis kept |
| Vectors.Vector2D.SubtractComponents | BOUT++/SRC/field/vector2d.cpp:151-153 | componentwise subtraction, basis kept |
| Vectors.Vector2D.AddAssign | BOUT++/SRC/field/vector2d.cpp:115-128 | ends in rhs's basis; every point is Sum of the old values |
| Vectors.Vector2D.SubAssign | BOUT++/SRC/field/vector2d.cpp:143-156 | ends in rhs's basis; every point is Difference of the old values |
| Vectors.Vector2D.MulAssign | BOUT++/SRC/field/vector2d.cpp:160-167 | every point scaled by rhs, basis kept |
| Vectors.Vector2D.MulAssignField | BOUT++/SRC/field/vector2d.cpp:169-176 | every point scaled by rhs at that point, basis kept |
| Vectors.Vector2D.DivAssign | BOUT++/SRC/field/vector2d.cpp:180-187 | every point divided by rhs, basis kept |
| Vectors.Vector2D.DivAssignField | BOUT++/SRC/field/vector2d.cpp:189-196 | every point divided by rhs at that point, basis kept |
| Vectors.Vector2D.CrossOfCovariant | BOUT++/SRC/field/vector2d.cpp:209-214 | a fresh contravariant vector holding the component formula at every point |
| Vectors.Vector2D.CrossAssign | BOUT++/SRC/field/vector2d.cpp:200-219 | ends contravariant; every point is the cross product of the old values |
| Vectors.Vector2D.Dot | BOUT++/SRC/field/vector2d.cpp:306-331 | a 2D field on the whole mesh holding DotAt of the two vectors at every point |
| Vectors.Vector2D.Negate | BOUT++/SRC/field/vector2d.cpp:132-141 | a fresh vector holding the negated values in the same basis |
| Vectors.Vector2D.Plus | BOUT++/SRC/field/vector2d.cpp:227-232 | a fresh vector holding Sum at every point |
| Vectors.Vector2D.Minus | BOUT++/SRC/field/vector2d.cpp:241-246 | a fresh vector holding Difference at every point |
| Vectors.Vector2D.Times | BOUT++/SRC/field/vector2d.cpp:258-263 | a fresh vector scaled by a scalar |
| Vectors.Vector2D.TimesField | BOUT++/SRC/field/vector2d.cpp:265-270 | a fresh vector scaled pointwise by a field |
| Vectors.Vector2D.Over | BOUT++/SRC/field/vector2d.cpp:282-287 | a fresh vector divided by a scalar |
| Vectors.Vector2D.OverField | BOUT++/SRC/field/vector2d.cpp:289-294 | a fresh vector divided pointwise by a field |
| Vectors.Vector2D.Cross | BOUT++/SRC/field/vector2d.cpp:340-345 | a fresh vector holding the cross product at every point |
| Vectors.SetThenGet | BOUT++/SRC/field/vector2d.cpp:402-451 | setData then getData at the same point gives back the three values read in, and both return 3 |
| Vectors.GetThenSet | BOUT++/SRC/field/vector2d.cpp:402-451 | getData then setData from the same buffer leaves the vector's components and flag unchanged |
| Vectors.ScalarTimes | BOUT++/SRC/field/vector2d.cpp:356-359 | real * vector is vector * real |
| Vectors.FieldTimes | BOUT++/SRC/field/vector2d.cpp:361-364 | field * vector is vector * field |
| Vectors.Vector2D.GetData | BOUT++/SRC/field/vector2d.cpp:402-417 | writes x, y, z at (jx, jy) to rptr[off .. off + 3], nothing else, and returns 3 |
| Vectors.Vector2D.SetData | BOUT++/SRC/field/vector2d.cpp:436-451 | reads rptr[off .. off + 3] into (jx, jy), changes no other point nor the flag, and returns 3 |
| Utils.IsPow2Correct | BOUT++/SRC/sys/utils.cpp:177-180 | for every 32-bit x except INT_MIN, is_pow2(x) iff x > 0 and x is a power of two |
| Utils.IsPow2AtIntMin | BOUT++/SRC/sys/utils.cpp:177-180 | at INT_MIN, where x - 1 wraps, the test reports true |
| Utils.LowestBitCleared | BOUT++/SRC/sys/utils.cpp:179 | for n >= 1, (n - 1) & n is zero iff n is a power of two |
| Utils.RoundNearest | BOUT++/SRC/sys/utils.cpp:154-157 | ROUND(x) is within one half of x |
| Utils.RoundHalfAway | BOUT++/SRC/sys/utils.cpp:154-157 | halves round away from zero |
| Utils.RoundOdd | BOUT++/SRC/sys/utils.cpp:154-157 | ROUND(-x) == -ROUND(x) |
| Utils.Swap | BOUT++/SRC/sys/utils.cpp:159-175 | the two locations exchange their values |
| Utils.CopyString | BOUT++/SRC/sys/utils.cpp:223-235 | null gives null; otherwise a fresh array with the string's characters and the terminator |
| Utils.CStrAt | BOUT++/SRC/sys/utils.cpp:229-232 | the string a buffer holds is its characters before the first terminator |
| Utils.ConcatBuffer.StrConcat | BOUT++/SRC/sys/utils.cpp:239-245 | returns the static buffer, holding the first 127 characters of the concatenation, or all of it when shorter |
| Utils.MatrixLayoutInjective | BOUT++/SRC/sys/utils.cpp:61-67 | matrix elements fit in the xsize * ysize block and never share storage |
| Utils.TensorLayoutInjective | BOUT++/SRC/sys/utils.cpp:117-124 | tensor elements fit in the nrow * ncol * ndep block and never share storage |
| Utils.RowBound | BOUT++/SRC/sys/utils.cpp:61-67 | every in-range element offset of a matrix lies inside its xsize * ysize block |
| Utils.Flat3Steps | BOUT++/SRC/sys/utils.cpp:117-124 | consecutive table entries are ndep apart along a row, and rows start ncol * ndep apart |
| Utils.TensorRowStart | BOUT++/SRC/sys/utils.cpp:117-124 | the table entry for t[i][j] holds offset (i * ncol + j) * ndep |
| Utils.RowOffsets | BOUT++/SRC/sys/utils.cpp:51-91 | row i of an rmatrix/imatrix starts at offset i * ysize |
| Utils.FillRow | BOUT++/SRC/sys/utils.cpp:119-123 | the inner r3tensor loop, started from entry from holding from * ndep, sets every entry c of the row to c * ndep and changes nothing else |
| Utils.Tensor3Offsets | BOUT++/SRC/sys/utils.cpp:105-128 | row i of the r3tensor table starts at i * ncol, and table entry c holds data offset c * ndep |

## Left out

- The time-integration library calls, MPI reductions, timing, restart output and option parsing of the solver (`init`, `run`, `rhs`, `gloc` and the C callbacks) are not part of this model.
- `interp_to` is a parameter of `SaveDerivsTo`, a function from a field and a location to a field; its numerics are not modelled.
- Field storage is a map from points to reals. Freshly allocated data is uninitialised in C; the model fills it with 0.0.
- Writing into a field without data (a null pointer in C) leaves it unchanged in the model, and reading from one gives 0.0. The solver never does either: `load_vars` allocates first, `save_vars` checks, and `SaveDerivsTo` requires every derivative to have data, because `save_derivs` dereferences them without a check.
- StatePacker.Solver.LoopVars, StatePacker.Solver.LoadFrom, StatePacker.Solver.SaveTo, StatePacker.Solver.SaveDerivsTo: require the buffer to hold every visited point. The C code trusts its caller to size the vector with the local count; that count (`getLocalN`) is not part of this model.
- Transfer.Apply: skips a copy whose values would not fit in the buffer, to stay total. The solver's loops never make such a copy.
- Vector basis changes in `save_vars` and `save_derivs` are modelled only as the vectors' basis flags (`VecVar`). The transformation of the component values belongs to `Vector2D`, and the `Vector3D` class is not part of this model.
- Each registered vector's components are separate fields in the model; their aliasing with registered field variables is not modelled.
- Floating point is modelled with mathematical reals: no rounding, overflow, infinities or NaN.
- Vectors.Vector2D.DivAssign, Vectors.Vector2D.DivAssignField, Vectors.Vector2D.Over and Vectors.Vector2D.OverField require a nonzero divisor, and the cross product requires J != 0, because real division by zero is undefined.
- The round trip of to_covariant then to_contravariant depends on the metric tensors being inverse to each other, which the code does not check. It is not stated.
- `abs(Vector2D)` (a square root) and every operator that mixes in `Vector3D` are not part of this model.
- Vectors.Vector2D.GetData and Vectors.Vector2D.SetData: model only the `real *` overloads. The `void *` overloads return a byte count. Their range check (`jx <= ncx`, `jy <= ncy`, `jz < ncz`, else exit) is a precondition.
- Utils.IsPow2Correct excludes INT_MIN, where `x - 1` overflows (undefined behaviour in C). IsPow2AtIntMin states what the wrapping interpretation gives there.
- Utils.Round: models only the arithmetic; the result is assumed to fit in an int.
- The `malloc`/`new` wrappers (`rvector`, `ivector`, their resize forms, `cmatrix`), the `free_*` functions, `SQ`, and the allocation-failure exits are not part of this model. Only the offset layout of the contiguous blocks is modelled, not the pointers themselves.
- Utils.RowOffsets and Utils.Tensor3Offsets require at least one row and one column, because their `!=` loops do not terminate otherwise.
- Utils.CopyString requires a terminator in a non-null input, as `strlen` does.
- Utils.ConcatBuffer.StrConcat takes its inputs as character sequences without a terminator, and leaves out `snprintf`'s return value.
