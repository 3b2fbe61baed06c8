/** Index arithmetic of the voxel grid: the flat position of voxel (x, y, z) in
    the `data` list, which the triple loop fills with x slowest and z fastest,
    and the divisor of the progress counter. */
module GridLayout {

  /** The position at which the triple loop appends voxel (x, y, z) of an
      n x n x n grid. */
  function Flat(n: int, x: int, y: int, z: int): int {
    (x * n + y) * n + z
  }

  /** The voxel coordinates of flat position k. */
  function VoxelX(n: int, k: int): int
    requires n > 0
  {
    k / n / n
  }

  function VoxelY(n: int, k: int): int
    requires n > 0
  {
    k / n % n
  }

  function VoxelZ(n: int, k: int): int
    requires n > 0
  {
    k % n
  }

  /** Finishing a row of z moves to the start of the next row, finishing a
      plane of rows moves to the start of the next plane, and the end of the
      last plane is n^3: the triple loop fills positions 0, 1, 2, ... in turn. */
  lemma FlatCarry(n: int, x: int, y: int)
    ensures Flat(n, x, y, n) == Flat(n, x, y + 1, 0)
    ensures Flat(n, x, n, 0) == Flat(n, x + 1, 0, 0)
    ensures Flat(n, n, 0, 0) == n * n * n
  {
  }

  /** Monotonicity of products of non-negative integers, for four distinct
      factors. */
  lemma MulMonotone(a: int, b: int, c: int, d: int)
    requires 0 <= a <= b && 0 <= c <= d
    ensures a * c <= b * d
  {
    assert a * c <= b * c;
  }

  /** Division with remainder is unique. */
  lemma DivModUnique(q: int, r: int, n: int)
    requires n > 0 && 0 <= r < n
    ensures (q * n + r) / n == q && (q * n + r) % n == r
  {
    var m := q * n + r;
    var q', r' := m / n, m % n;
    assert q' * n + r' == q * n + r;
    if q' > q {
      assert (q' - q) * n == r - r';
      MulMonotone(1, q' - q, n, n);
      assert false;
    } else if q' < q {
      assert (q - q') * n == r' - r;
      MulMonotone(1, q - q', n, n);
      assert false;
    }
  }

  /** Every voxel of the grid has a position below n^3, and the position
      decodes back to the voxel. */
  lemma FlatDecodes(n: int, x: int, y: int, z: int)
    requires 0 <= x < n && 0 <= y < n && 0 <= z < n
    ensures 0 <= Flat(n, x, y, z) < n * n * n
    ensures VoxelX(n, Flat(n, x, y, z)) == x
    ensures VoxelY(n, Flat(n, x, y, z)) == y
    ensures VoxelZ(n, Flat(n, x, y, z)) == z
  {
    var row := x * n + y;
    MulMonotone(0, x, n, n);
    MulMonotone(x, n - 1, n, n);
    assert 0 <= row < n * n;
    MulMonotone(0, row, n, n);
    MulMonotone(row, n * n - 1, n, n);
    assert 0 <= Flat(n, x, y, z) < n * n * n;
    DivModUnique(row, z, n);
    DivModUnique(x, y, n);
  }

  /** The row `k / n` of a position below n^3 is below n^2. */
  lemma RowInRange(n: int, k: int)
    requires n > 0 && 0 <= k < n * n * n
    ensures 0 <= k / n < n * n
  {
    var row := k / n;
    assert k == row * n + k % n;
    if row >= n * n {
      MulMonotone(n * n, row, n, n);
      assert false;
    }
  }

  /** Every position below n^3 is the position of a voxel of the grid. */
  lemma DecodeInRange(n: int, k: int)
    requires n > 0 && 0 <= k < n * n * n
    ensures 0 <= VoxelX(n, k) < n && 0 <= VoxelY(n, k) < n && 0 <= VoxelZ(n, k) < n
    ensures Flat(n, VoxelX(n, k), VoxelY(n, k), VoxelZ(n, k)) == k
  {
    RowInRange(n, k);
    var row, x, y, z := k / n, k / n / n, k / n % n, k % n;
    assert k == row * n + z;
    assert row == x * n + y;
    if x >= n {
      MulMonotone(n, x, n, n);
      assert false;
    }
  }

  /** `total_points // 10` with `total_points = n ** 3` is zero exactly for
      grids of at most two voxels a side, where the progress modulo divides by
      zero. */
  lemma ProgressDivisorZero(n: int)
    requires n >= 0
    ensures (n * n * n) / 10 == 0 <==> n <= 2
  {
    if n <= 2 {
      MulMonotone(n, 2, n, 2);
      MulMonotone(n * n, 4, n, 2);
    } else {
      MulMonotone(3, n, 3, n);
      MulMonotone(9, n * n, 3, n);
    }
  }
}
