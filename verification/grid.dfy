/**
  Three-dimensional voxel arrays (`util::mdarray<T, 3>` in the C++ program,
  `T[,,]` in the C# one), modelled as nested sequences indexed `g[i][j][k]`
  along x, y and z.
*/
module Grid {

  /** The three extents of a grid. */
  datatype Dims = Dims(x: nat, y: nat, z: nat)

  type Grid3<T> = seq<seq<seq<T>>>

  /** `g` has extents `d`. */
  predicate Shaped<T>(g: Grid3<T>, d: Dims) {
    |g| == d.x &&
    forall i :: 0 <= i < |g| ==>
      |g[i]| == d.y && forall j :: 0 <= j < |g[i]| ==> |g[i][j]| == d.z
  }

  /** Extents and indices of the C++ grids are `std::size_t` (64-bit). */
  const SizeTRange: int := 0x1_0000_0000_0000_0000

  /** Conversion of an `int` to `std::size_t`: modulo 2^64. */
  function AsSizeT(v: int): int {
    v % SizeTRange
  }

  /** `(i, j, k)` is a cell of a grid with extents `d`. */
  predicate InGrid(d: Dims, i: int, j: int, k: int) {
    0 <= i < d.x && 0 <= j < d.y && 0 <= k < d.z
  }

  function Min(a: int, b: int): int {
    if a < b then a else b
  }

  function Max(a: int, b: int): int {
    if a < b then b else a
  }

  /** A row of `n` copies of `v`. */
  function FilledRow<T>(n: nat, v: T): (r: seq<T>)
    ensures |r| == n && forall k :: 0 <= k < n ==> r[k] == v
  {
    seq(n, _ => v)
  }

  /** A grid of extents `d` holding `v` everywhere: a freshly allocated
      `mdarray` (value-initialised) or C# array. */
  function Filled<T>(d: Dims, v: T): (g: Grid3<T>)
    ensures Shaped(g, d)
    ensures forall i, j, k :: InGrid(d, i, j, k) ==> g[i][j][k] == v
  {
    seq(d.x, _ => seq(d.y, _ => FilledRow(d.z, v)))
  }
}
