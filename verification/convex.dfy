/**
  The "convexify" passes of `voxelize`, run after carving: along every
  column in z, then in y, then in x, the surface voxels between the first
  and the last one of the column are filled in, so the part's voxels have no
  gaps along those lines apart from what carving keeps open.
*/
module Convexify {
  import opened Grid

  const IntMax := 0x7fff_ffff
  const IntMin := -0x8000_0000

  /** Some voxel of `col` before index `k` is set. */
  predicate TrueBefore(col: seq<bool>, k: int) {
    exists a | 0 <= a < k && a < |col| :: col[a]
  }

  /** Some voxel of `col` after index `k` is set. */
  predicate TrueAfter(col: seq<bool>, k: int) {
    exists b | 0 <= b < |col| && k < b :: col[b]
  }

  /** The reference definition of one column's fill: a voxel is set when it
      was set or lies strictly between two set voxels. */
  function SpanOf(col: seq<bool>): (r: seq<bool>)
    ensures |r| == |col|
  {
    seq(|col|, k requires 0 <= k < |col| => col[k] || (TrueBefore(col, k) && TrueAfter(col, k)))
  }

  /** The span fill never clears a voxel. */
  lemma SpanNeverClears(col: seq<bool>, k: int)
    requires 0 <= k < |col| && col[k]
    ensures SpanOf(col)[k]
  {
  }

  /** Every voxel between two set voxels, ends included, is set by the
      fill. */
  lemma SpanClosed(col: seq<bool>, a: int, k: int, b: int)
    requires 0 <= a <= k <= b < |col| && col[a] && col[b]
    ensures SpanOf(col)[k]
  {
    if a < k < b {
      assert TrueBefore(col, k) && TrueAfter(col, k);
    }
  }

  /** A column with no set voxel is left as it is. */
  lemma SpanOfEmpty(col: seq<bool>)
    requires forall k :: 0 <= k < |col| ==> !col[k]
    ensures SpanOf(col) == col
  {
  }

  /** Filling a filled column changes nothing: the fill keeps the first and
      the last set voxel. */
  lemma SpanIdempotent(col: seq<bool>)
    ensures SpanOf(SpanOf(col)) == SpanOf(col)
  {
    var r := SpanOf(col);
    forall k | 0 <= k < |col| && TrueBefore(r, k) && TrueAfter(r, k)
      ensures r[k]
    {
      var a :| 0 <= a < k && r[a];
      var b :| k < b < |col| && r[b];
      var a' := if col[a] then a else var x :| 0 <= x < a && col[x]; x;
      var b' := if col[b] then b else var y :| b < y < |col| && col[y]; y;
      SpanClosed(col, a', k, b');
    }
  }

  /** The two loops for one column: the first and the last set voxel are
      found as `minV` and `maxV` (starting from `INT_MAX` and `INT_MIN`), then
      `minV <= z < maxV` is set, a half-open range whose end `maxV` is
      already set. The result is the closed span. */
  method FillSpan(col: seq<bool>) returns (r: seq<bool>)
    requires |col| <= IntMax
    ensures r == SpanOf(col)
  {
    var minV := IntMax;
    var maxV := IntMin;
    var z := 0;
    while z < |col|
      invariant 0 <= z <= |col|
      invariant minV == IntMax ==> maxV == IntMin && forall a :: 0 <= a < z ==> !col[a]
      invariant minV != IntMax ==>
        0 <= minV <= maxV < z && col[minV] && col[maxV] &&
        (forall a :: 0 <= a < minV ==> !col[a]) && (forall a :: maxV < a < z ==> !col[a])
    {
      if col[z] {
        minV := Min(z, minV);
        maxV := Max(z, maxV);
      }
      z := z + 1;
    }
    r := col;
    z := minV;
    while z < maxV
      invariant |r| == |col|
      invariant minV == IntMax ==> r == col
      invariant minV != IntMax ==>
        minV <= z <= maxV && forall k :: 0 <= k < |col| ==> r[k] == (col[k] || minV <= k < z)
    {
      r := r[z := true];
      z := z + 1;
    }
    forall k | 0 <= k < |col|
      ensures r[k] == SpanOf(col)[k]
    {
      if minV != IntMax && minV <= k < maxV && !col[k] {
        assert TrueBefore(col, k) && TrueAfter(col, k);
      }
    }
  }

  /** The column of `g` along y at `(i, k)`. */
  function ColumnY(g: Grid3<bool>, vd: Dims, i: nat, k: nat): (r: seq<bool>)
    requires Shaped(g, vd) && i < vd.x && k < vd.z
    ensures |r| == vd.y && forall j :: 0 <= j < vd.y ==> r[j] == g[i][j][k]
  {
    seq(vd.y, j requires 0 <= j < vd.y => g[i][j][k])
  }

  /** The column of `g` along x at `(j, k)`. */
  function ColumnX(g: Grid3<bool>, vd: Dims, j: nat, k: nat): (r: seq<bool>)
    requires Shaped(g, vd) && j < vd.y && k < vd.z
    ensures |r| == vd.x && forall i :: 0 <= i < vd.x ==> r[i] == g[i][j][k]
  {
    seq(vd.x, i requires 0 <= i < vd.x => g[i][j][k])
  }

  /** Convex in z: every column along z is filled. */
  function PassZ(g: Grid3<bool>, vd: Dims): (r: Grid3<bool>)
    requires Shaped(g, vd)
    ensures Shaped(r, vd)
  {
    seq(vd.x, i requires 0 <= i < vd.x => seq(vd.y, j requires 0 <= j < vd.y => SpanOf(g[i][j])))
  }

  /** Convex in y: every column along y is filled. */
  function PassY(g: Grid3<bool>, vd: Dims): (r: Grid3<bool>)
    requires Shaped(g, vd)
    ensures Shaped(r, vd)
  {
    seq(vd.x, i requires 0 <= i < vd.x =>
      seq(vd.y, j requires 0 <= j < vd.y =>
        seq(vd.z, k requires 0 <= k < vd.z => SpanOf(ColumnY(g, vd, i, k))[j])))
  }

  /** Convex in x: every column along x is filled. */
  function PassX(g: Grid3<bool>, vd: Dims): (r: Grid3<bool>)
    requires Shaped(g, vd)
    ensures Shaped(r, vd)
  {
    seq(vd.x, i requires 0 <= i < vd.x =>
      seq(vd.y, j requires 0 <= j < vd.y =>
        seq(vd.z, k requires 0 <= k < vd.z => SpanOf(ColumnX(g, vd, j, k))[i])))
  }

  /** The three passes in the order the source runs them. */
  function Convex(g: Grid3<bool>, vd: Dims): (r: Grid3<bool>)
    requires Shaped(g, vd)
    ensures Shaped(r, vd)
  {
    PassX(PassY(PassZ(g, vd), vd), vd)
  }

  /** No pass clears a voxel, so neither does the whole convexify step. */
  lemma ConvexNeverClears(g: Grid3<bool>, vd: Dims, i: int, j: int, k: int)
    requires Shaped(g, vd) && InGrid(vd, i, j, k) && g[i][j][k]
    ensures Convex(g, vd)[i][j][k]
  {
    var gz := PassZ(g, vd);
    SpanNeverClears(g[i][j], k);
    var gy := PassY(gz, vd);
    SpanNeverClears(ColumnY(gz, vd, i, k), j);
    SpanNeverClears(ColumnX(gy, vd, j, k), i);
  }

  /** The z pass fills the closed span between two voxels of a z column. */
  lemma PassZClosed(g: Grid3<bool>, vd: Dims, i: int, j: int, a: int, k: int, b: int)
    requires Shaped(g, vd) && InGrid(vd, i, j, a) && a <= k <= b < vd.z
    requires g[i][j][a] && g[i][j][b]
    ensures PassZ(g, vd)[i][j][k]
  {
    SpanClosed(g[i][j], a, k, b);
  }

  /** The y pass fills the closed span between two voxels of a y column. */
  lemma PassYClosed(g: Grid3<bool>, vd: Dims, i: int, a: int, j: int, b: int, k: int)
    requires Shaped(g, vd) && InGrid(vd, i, a, k) && a <= j <= b < vd.y
    requires g[i][a][k] && g[i][b][k]
    ensures PassY(g, vd)[i][j][k]
  {
    SpanClosed(ColumnY(g, vd, i, k), a, j, b);
  }

  /** The x pass fills the closed span between two voxels of an x column. */
  lemma PassXClosed(g: Grid3<bool>, vd: Dims, a: int, i: int, b: int, j: int, k: int)
    requires Shaped(g, vd) && InGrid(vd, a, j, k) && a <= i <= b < vd.x
    requires g[a][j][k] && g[b][j][k]
    ensures PassX(g, vd)[i][j][k]
  {
    SpanClosed(ColumnX(g, vd, j, k), a, i, b);
  }

  /** The x pass sets a voxel only if it was set or lies between two set
      voxels of its x column: it fills nothing outside the spans. */
  lemma PassXOnlyBetween(g: Grid3<bool>, vd: Dims, i: int, j: int, k: int)
    requires Shaped(g, vd) && InGrid(vd, i, j, k)
    requires PassX(g, vd)[i][j][k] && !g[i][j][k]
    ensures exists a, b :: 0 <= a < i < b < vd.x && g[a][j][k] && g[b][j][k]
  {
    var col := ColumnX(g, vd, j, k);
    assert TrueBefore(col, i) && TrueAfter(col, i);
    var a :| 0 <= a < i && col[a];
    var b :| i < b < vd.x && col[b];
    assert g[a][j][k] && g[b][j][k];
  }

  /** As `PassXOnlyBetween`, for the z pass. */
  lemma PassZOnlyBetween(g: Grid3<bool>, vd: Dims, i: int, j: int, k: int)
    requires Shaped(g, vd) && InGrid(vd, i, j, k)
    requires PassZ(g, vd)[i][j][k] && !g[i][j][k]
    ensures exists a, b :: 0 <= a < k < b < vd.z && g[i][j][a] && g[i][j][b]
  {
    assert TrueBefore(g[i][j], k) && TrueAfter(g[i][j], k);
  }

  /** As `PassXOnlyBetween`, for the y pass. */
  lemma PassYOnlyBetween(g: Grid3<bool>, vd: Dims, i: int, j: int, k: int)
    requires Shaped(g, vd) && InGrid(vd, i, j, k)
    requires PassY(g, vd)[i][j][k] && !g[i][j][k]
    ensures exists a, b :: 0 <= a < j < b < vd.y && g[i][a][k] && g[i][b][k]
  {
    var col := ColumnY(g, vd, i, k);
    assert TrueBefore(col, j) && TrueAfter(col, j);
    var a :| 0 <= a < j && col[a];
    var b :| j < b < vd.y && col[b];
    assert g[i][a][k] && g[i][b][k];
  }

  /** The result of the three passes is convex along x: the closed span
      between any two of its voxels on an x line is filled. */
  lemma ConvexAlongX(g: Grid3<bool>, vd: Dims, a: int, i: int, b: int, j: int, k: int)
    requires Shaped(g, vd) && InGrid(vd, a, j, k) && a <= i <= b < vd.x
    requires Convex(g, vd)[a][j][k] && Convex(g, vd)[b][j][k]
    ensures Convex(g, vd)[i][j][k]
  {
    var gy := PassY(PassZ(g, vd), vd);
    var col := ColumnX(gy, vd, j, k);
    var filled := ColumnX(Convex(g, vd), vd, j, k);
    assert filled == SpanOf(col);
    SpanIdempotent(col);
    SpanClosed(filled, a, i, b);
  }
}
