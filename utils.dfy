/**
 * Small utilities of the system library: the power-of-two bit test, rounding to
 * the nearest integer, swapping through references, C-string copy and
 * concatenation, and the row-pointer layout that the contiguous matrix and
 * tensor allocators build over one data block.
 *
 * Allocation itself is not modelled: a layout is given as element offsets
 * from the start of the single data block.
 */
module Utils {

  /** The C `int` type of the platform: 32-bit two's complement. */
  newtype int32 = x: int | -0x8000_0000 <= x < 0x8000_0000

  const INT_MIN: int32 := -0x8000_0000

  // ---------------------------------------------------------------------
  // is_pow2
  // ---------------------------------------------------------------------

  /** Bitwise AND of two naturals, taken bit by bit from the least significant end. */
  function BitAnd(a: nat, b: nat): nat
    decreases a
  {
    if a == 0 || b == 0 then 0
    else 2 * BitAnd(a / 2, b / 2) + (if a % 2 == 1 && b % 2 == 1 then 1 else 0)
  }

  /** The bit pattern of a C int as an unsigned 32-bit value (two's complement, wrapping). */
  function Bits(v: int): nat
  {
    v % 0x1_0000_0000
  }

  /** `is_pow2(x)`: `x && !((x-1) & x)`, with `x-1` taken modulo 2^32. */
  function IsPow2(x: int32): bool
  {
    x != 0 && BitAnd(Bits(x as int - 1), Bits(x as int)) == 0
  }

  function Pow2(k: nat): nat
  {
    if k == 0 then 1 else 2 * Pow2(k - 1)
  }

  /** Reference definition: n is 1, 2, 4, 8, ... */
  predicate PowerOfTwo(n: int)
    decreases if n < 0 then 0 else n
  {
    n == 1 || (n >= 2 && n % 2 == 0 && PowerOfTwo(n / 2))
  }

  lemma {:induction false} BitAndSelf(a: nat)
    ensures BitAnd(a, a) == a
  {
    if a != 0 {
      BitAndSelf(a / 2);
    }
  }

  /** For n >= 1, clearing the lowest set bit of n gives zero exactly when n is a power of two. */
  lemma {:induction false} LowestBitCleared(n: nat)
    requires n >= 1
    ensures BitAnd(n - 1, n) == 0 <==> PowerOfTwo(n)
  {
    if n == 1 {
    } else if n % 2 == 0 {
      var m := n / 2;
      assert (n - 1) / 2 == m - 1;
      assert BitAnd(n - 1, n) == 2 * BitAnd(m - 1, m);
      LowestBitCleared(m);
    } else {
      var m := n / 2;
      assert (n - 1) / 2 == m;
      assert BitAnd(n - 1, n) == 2 * BitAnd(m, m);
      BitAndSelf(m);
    }
  }

  /** Two values that both have bit k as their highest set bit keep bit k in their AND. */
  lemma {:induction false} HighBitKept(a: nat, b: nat, k: nat)
    requires Pow2(k) <= a < 2 * Pow2(k) && Pow2(k) <= b < 2 * Pow2(k)
    ensures BitAnd(a, b) >= Pow2(k)
  {
    if k > 0 {
      HighBitKept(a / 2, b / 2, k - 1);
    }
  }

  /** A value below 2^k shares no bit with 2^k. */
  lemma {:induction false} BelowPowerDisjoint(a: nat, k: nat)
    requires a < Pow2(k)
    ensures BitAnd(a, Pow2(k)) == 0
  {
    if k > 0 && a != 0 {
      BelowPowerDisjoint(a / 2, k - 1);
    }
  }

  lemma {:induction false} Pow2Add(a: nat, b: nat)
    ensures Pow2(a + b) == Pow2(a) * Pow2(b)
  {
    if a > 0 {
      Pow2Add(a - 1, b);
    }
  }

  lemma {:induction false} Pow2Of31()
    ensures Pow2(31) == 0x8000_0000
  {
    assert Pow2(3) == 8;
    Pow2Add(3, 3);
    Pow2Add(6, 6);
    Pow2Add(12, 12);
    Pow2Add(24, 6);
    Pow2Add(30, 1);
  }

  /** For every int except INT_MIN, is_pow2 holds exactly of the positive powers of two. */
  lemma {:induction false} IsPow2Correct(x: int32)
    requires x > INT_MIN
    ensures IsPow2(x) <==> x > 0 && PowerOfTwo(x as int)
  {
    if x > 0 {
      assert Bits(x as int - 1) == x as int - 1 && Bits(x as int) == x as int;
      LowestBitCleared(x as int);
    } else if x < 0 {
      Pow2Of31();
      HighBitKept(Bits(x as int - 1), Bits(x as int), 31);
    }
  }

  /** At INT_MIN the decrement wraps (undefined in C); the wrapped result reports true. */
  lemma {:induction false} IsPow2AtIntMin()
    ensures IsPow2(INT_MIN)
  {
    Pow2Of31();
    assert Bits(INT_MIN as int - 1) == 0x7FFF_FFFF;
    assert Bits(INT_MIN as int) == Pow2(31);
    BelowPowerDisjoint(0x7FFF_FFFF, 31);
  }

  // ---------------------------------------------------------------------
  // ROUND
  // ---------------------------------------------------------------------

  /** C conversion of a real to int: truncation toward zero. */
  function Trunc(r: real): int
  {
    if r >= 0.0 then r.Floor else -((-r).Floor)
  }

  /** `ROUND(x)`: `(int)(x + 0.5)` for x > 0, `(int)(x - 0.5)` otherwise. */
  function Round(x: real): int
  {
    if x > 0.0 then Trunc(x + 0.5) else Trunc(x - 0.5)
  }

  /** The result is a nearest integer: within one half of x. */
  lemma {:induction false} RoundNearest(x: real)
    ensures Round(x) as real - 0.5 <= x <= Round(x) as real + 0.5
  {
  }

  /** Halves round away from zero. */
  lemma {:induction false} RoundHalfAway(n: nat)
    ensures Round(n as real + 0.5) == n + 1
    ensures Round(-(n as real) - 0.5) == -(n + 1)
  {
  }

  /** Rounding commutes with negation. */
  lemma {:induction false} RoundOdd(x: real)
    ensures Round(-x) == -Round(x)
  {
  }

  // ---------------------------------------------------------------------
  // SWAP
  // ---------------------------------------------------------------------

  /** A storage location that a C++ reference designates. */
  class Cell<T> {
    var val: T

    constructor (v: T)
      ensures val == v
    {
      val := v;
    }
  }

  /** `SWAP(a, b)` for both the real and the complex overload. */
  method Swap<T>(a: Cell<T>, b: Cell<T>)
    modifies a, b
    ensures a.val == old(b.val) && b.val == old(a.val)
  {
    var tmp := a.val;
    a.val := b.val;
    b.val := tmp;
  }

  // ---------------------------------------------------------------------
  // C strings: copy_string and strconcat
  // ---------------------------------------------------------------------

  /** The characters of a C string: everything before the first NUL. */
  function CStr(s: seq<char>): seq<char>
  {
    if s == [] || s[0] == '\0' then [] else [s[0]] + CStr(s[1..])
  }

  lemma {:induction false} CStrAt(s: seq<char>, n: nat)
    requires n < |s| && s[n] == '\0'
    requires forall k :: 0 <= k < n ==> s[k] != '\0'
    ensures CStr(s) == s[..n]
  {
    if n > 0 {
      CStrAt(s[1..], n - 1);
      assert s[..n] == [s[0]] + s[1..][..n - 1];
    }
  }

  /**
   * `copy_string(s)`: a null pointer gives a null pointer; otherwise a freshly
   * allocated copy holding the same characters and the terminator.
   */
  method CopyString(s: array?<char>) returns (r: array?<char>)
    requires s != null ==> '\0' in s[..]
    ensures (r == null) == (s == null)
    ensures s != null ==> fresh(r) && r[..] == CStr(s[..]) + ['\0']
  {
    if s == null {
      return null;
    }
    // strlen
    var n := 0;
    while s[n] != '\0'
      invariant 0 <= n < s.Length
      invariant exists k :: n <= k < s.Length && s[k] == '\0'
      invariant forall k :: 0 <= k < n ==> s[k] != '\0'
      decreases s.Length - n
    {
      n := n + 1;
    }
    CStrAt(s[..], n);
    // malloc(n+1) and strcpy, terminator included
    r := new char[n + 1];
    var i := 0;
    while i < n + 1
      invariant 0 <= i <= n + 1
      invariant r[..i] == s[..i]
    {
      r[i] := s[i];
      i := i + 1;
    }
    assert r[..] == s[..n] + [s[n]];
  }

  /** The length limit of the static concatenation buffer, terminator excluded. */
  const CONCAT_LIMIT: nat := 127

  /** The static 128-character buffer that `strconcat` writes and returns. */
  class ConcatBuffer {
    const buffer: array<char>

    constructor ()
      ensures fresh(buffer) && buffer.Length == CONCAT_LIMIT + 1
    {
      buffer := new char[CONCAT_LIMIT + 1];
    }

    /**
     * `strconcat(left, right)`: `snprintf(buffer, 128, "%s%s", left, right)`;
     * the result is the buffer itself, overwritten by every call.
     */
    method StrConcat(left: seq<char>, right: seq<char>) returns (r: array<char>)
      requires buffer.Length == CONCAT_LIMIT + 1
      requires '\0' !in left && '\0' !in right
      modifies buffer
      ensures r == buffer
      ensures CStr(buffer[..]) == (left + right)[..Min(|left| + |right|, CONCAT_LIMIT)]
    {
      var s := left + right;
      var n := Min(|s|, CONCAT_LIMIT);
      var k := 0;
      while k < n
        invariant 0 <= k <= n
        invariant buffer[..k] == s[..k]
      {
        buffer[k] := s[k];
        k := k + 1;
      }
      buffer[n] := '\0';
      assert forall j :: 0 <= j < n ==> buffer[j] == s[j];
      CStrAt(buffer[..], n);
      r := buffer;
    }
  }

  function Min(a: nat, b: nat): nat
  {
    if a < b then a else b
  }

  // ---------------------------------------------------------------------
  // rmatrix / imatrix / r3tensor: offsets into one contiguous block
  // ---------------------------------------------------------------------

  /** Element (i, j) of an xsize-by-ysize matrix sits at i*ysize + j of the block. */
  function Flat2(i: int, j: int, ysize: int): int
  {
    i * ysize + j
  }

  /** Element (i, j, k) of an nrow-by-ncol-by-ndep tensor sits at (i*ncol + j)*ndep + k. */
  function Flat3(i: int, j: int, k: int, ncol: int, ndep: int): int
  {
    Flat2(i, j, ncol) * ndep + k
  }

  lemma {:induction false} Flat3Steps(i: nat, j: nat, ncol: nat, ndep: nat)
    ensures j > 0 ==> Flat3(i, j, 0, ncol, ndep) == Flat3(i, j - 1, 0, ncol, ndep) + ndep
    ensures i > 0 ==> Flat3(i, 0, 0, ncol, ndep) == Flat3(i - 1, 0, 0, ncol, ndep) + ncol * ndep
  {
    if j > 0 {
      assert (i * ncol + j) * ndep == (i * ncol + (j - 1)) * ndep + ndep;
    }
    if i > 0 {
      assert i * ncol == (i - 1) * ncol + ncol;
      assert (i * ncol) * ndep == ((i - 1) * ncol) * ndep + ncol * ndep;
    }
  }

  lemma {:induction false} RowBound(i: nat, j: nat, xsize: nat, ysize: nat)
    requires i < xsize && j < ysize
    ensures 0 <= Flat2(i, j, ysize) < xsize * ysize
  {
    assert i * ysize + ysize == (i + 1) * ysize;
    assert (i + 1) * ysize <= xsize * ysize;
  }

  /** Distinct elements of a matrix never share storage, and all of them fit in the block. */
  lemma {:induction false} MatrixLayoutInjective(xsize: nat, ysize: nat, i1: nat, j1: nat, i2: nat, j2: nat)
    requires i1 < xsize && j1 < ysize && i2 < xsize && j2 < ysize
    ensures 0 <= Flat2(i1, j1, ysize) < xsize * ysize
    ensures Flat2(i1, j1, ysize) == Flat2(i2, j2, ysize) ==> i1 == i2 && j1 == j2
  {
    RowBound(i1, j1, xsize, ysize);
    if i1 < i2 {
      RowBound(i1, j1, i2, ysize);
      assert i2 * ysize <= Flat2(i2, j2, ysize);
    } else if i2 < i1 {
      RowBound(i2, j2, i1, ysize);
      assert i1 * ysize <= Flat2(i1, j1, ysize);
    }
  }

  /** Distinct elements of a tensor never share storage, and all of them fit in the block. */
  lemma {:induction false} TensorLayoutInjective(nrow: nat, ncol: nat, ndep: nat,
                              i1: nat, j1: nat, k1: nat, i2: nat, j2: nat, k2: nat)
    requires i1 < nrow && j1 < ncol && k1 < ndep
    requires i2 < nrow && j2 < ncol && k2 < ndep
    ensures 0 <= Flat3(i1, j1, k1, ncol, ndep) < nrow * ncol * ndep
    ensures Flat3(i1, j1, k1, ncol, ndep) == Flat3(i2, j2, k2, ncol, ndep) ==> i1 == i2 && j1 == j2 && k1 == k2
  {
    MatrixLayoutInjective(nrow, ncol, i1, j1, i2, j2);
    MatrixLayoutInjective(nrow, ncol, i2, j2, i1, j1);
    var c1, c2 := Flat2(i1, j1, ncol), Flat2(i2, j2, ncol);
    MatrixLayoutInjective(nrow * ncol, ndep, c1, k1, c2, k2);
    assert Flat3(i1, j1, k1, ncol, ndep) == Flat2(c1, k1, ndep);
    assert Flat3(i2, j2, k2, ncol, ndep) == Flat2(c2, k2, ndep);
    assert nrow * ncol * ndep == (nrow * ncol) * ndep;
  }

  /** Entry `rows[i] + j` of the r3tensor pointer table holds the start of `t[i][j]`. */
  lemma {:induction false} TensorRowStart(nrow: nat, ncol: nat, ndep: nat, i: nat, j: nat)
    requires i < nrow && j < ncol
    ensures 0 <= Flat2(i, 0, ncol) + j < nrow * ncol
    ensures (Flat2(i, 0, ncol) + j) * ndep == Flat3(i, j, 0, ncol, ndep)
  {
    RowBound(i, j, nrow, ncol);
  }

  /**
   * `rmatrix(xsize, ysize)` and `imatrix(xsize, ysize)` (the same layout for real
   * and int elements): the row table, as offsets of each row from the block start.
   * The loop `for(i=1; i!=xsize; i++)` needs xsize >= 1.
   */
  method RowOffsets(xsize: nat, ysize: nat) returns (m: array<int>)
    requires xsize >= 1
    ensures fresh(m) && m.Length == xsize
    ensures forall i :: 0 <= i < xsize ==> m[i] == Flat2(i, 0, ysize)
  {
    m := new int[xsize];
    m[0] := 0;
    var i := 1;
    while i != xsize
      invariant 1 <= i <= xsize
      invariant forall k :: 0 <= k < i ==> m[k] == Flat2(k, 0, ysize)
    {
      m[i] := m[i - 1] + ysize;
      i := i + 1;
    }
  }

  /**
   * The inner loop of `r3tensor` for one row: entries from + 1 .. from + n - 1 of
   * the table of row pointers, each ndep past the one before it.
   */
  method FillRow(ptrs: array<int>, from: nat, n: nat, ndep: nat)
    requires n >= 1 && from + n <= ptrs.Length && ptrs[from] == from * ndep
    modifies ptrs
    ensures forall c :: from <= c < from + n ==> ptrs[c] == c * ndep
    ensures forall c :: 0 <= c < ptrs.Length && !(from <= c < from + n) ==> ptrs[c] == old(ptrs[c])
  {
    var j := 1;
    while j != n
      invariant 1 <= j <= n
      invariant forall c :: from <= c < from + j ==> ptrs[c] == c * ndep
      invariant forall c :: 0 <= c < ptrs.Length && !(from <= c < from + j) ==> ptrs[c] == old(ptrs[c])
    {
      assert (from + j) * ndep == (from + j - 1) * ndep + ndep;
      ptrs[from + j] := ptrs[from + j - 1] + ndep;
      j := j + 1;
    }
  }

  /**
   * `r3tensor(nrow, ncol, ndep)`: `rows[i]` is the offset of `t[i]` in the table of
   * row pointers, and `ptrs[c]` is the data offset held in entry c of that table,
   * so `t[i][j]` starts at `ptrs[rows[i] + j]`, that is at `Flat3(i, j, 0, ncol, ndep)`
   * (see TensorRowStart). The `!=` loops need nrow, ncol >= 1.
   */
  method Tensor3Offsets(nrow: nat, ncol: nat, ndep: nat) returns (rows: array<int>, ptrs: array<int>)
    requires nrow >= 1 && ncol >= 1
    ensures fresh(rows) && fresh(ptrs)
    ensures rows.Length == nrow && ptrs.Length == nrow * ncol
    ensures forall i :: 0 <= i < nrow ==> rows[i] == Flat2(i, 0, ncol)
    ensures forall c :: 0 <= c < nrow * ncol ==> ptrs[c] == c * ndep
  {
    rows := new int[nrow];
    ptrs := new int[nrow * ncol];
    RowBound(0, ncol - 1, nrow, ncol);
    rows[0] := 0;
    ptrs[0] := 0;
    FillRow(ptrs, 0, ncol, ndep);
    var i := 1;
    while i != nrow
      invariant 1 <= i <= nrow
      invariant forall a :: 0 <= a < i ==> rows[a] == Flat2(a, 0, ncol)
      invariant forall c :: 0 <= c < i * ncol ==> ptrs[c] == c * ndep
    {
      RowBound(i, ncol - 1, nrow, ncol);
      assert i * ncol == (i - 1) * ncol + ncol;
      rows[i] := rows[i - 1] + ncol;
      assert (i * ncol) * ndep == ((i - 1) * ncol) * ndep + ncol * ndep;
      ptrs[rows[i]] := ptrs[rows[i - 1]] + ncol * ndep;
      FillRow(ptrs, rows[i], ncol, ndep);
      assert (i + 1) * ncol == i * ncol + ncol;
      i := i + 1;
    }
  }
}
