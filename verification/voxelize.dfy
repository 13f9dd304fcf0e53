/**
  `voxelize` (C++) and `Mesh.Voxelize` (C#) after the triangles are
  rendered: carving and convexifying (only when the carver size is
  positive), the one-voxel expansion that writes orientation `o` into the
  part's voxel grid, and the volume count returned to the caller.
*/
module Voxelize {
  import opened Grid
  import opened Occupancy
  import opened Carving
  import opened Convexify

  /** The expansion loop visits `(x, y, z)` with each coordinate below its
      extent minus one, and acts on it when it is marked. */
  predicate MarkedAt(marked: Grid3<bool>, vd: Dims, x: int, y: int, z: int)
    requires Shaped(marked, vd)
  {
    0 <= x < vd.x - 1 && 0 <= y < vd.y - 1 && 0 <= z < vd.z - 1 && marked[x][y][z]
  }

  /** The offsets of the seven cells a marked cell writes to: one step up
      along any non-empty subset of the axes. The cell itself is not among
      them. */
  predicate Offset(dx: int, dy: int, dz: int) {
    0 <= dx <= 1 && 0 <= dy <= 1 && 0 <= dz <= 1 && dx + dy + dz > 0
  }

  /** Cell `(i, j, k)` is one of the seven targets of some marked cell. */
  predicate Reached(marked: Grid3<bool>, vd: Dims, i: int, j: int, k: int)
    requires Shaped(marked, vd)
  {
    MarkedAt(marked, vd, i - 1, j - 1, k - 1) || MarkedAt(marked, vd, i - 1, j - 1, k) ||
    MarkedAt(marked, vd, i - 1, j, k - 1) || MarkedAt(marked, vd, i - 1, j, k) ||
    MarkedAt(marked, vd, i, j - 1, k) || MarkedAt(marked, vd, i, j - 1, k - 1) ||
    MarkedAt(marked, vd, i, j, k - 1)
  }

  /** The expansion loop: `voxels[...] |= index` on the seven targets of
      every marked cell. The ORs commute, so the result is described cell by
      cell. */
  function Dilate(voxels: Grid3<Orients>, vd: Dims, marked: Grid3<bool>, o: nat): (r: Grid3<Orients>)
    requires Shaped(voxels, vd) && Shaped(marked, vd)
    ensures Shaped(r, vd)
  {
    seq(vd.x, i requires 0 <= i < vd.x =>
      seq(vd.y, j requires 0 <= j < vd.y =>
        seq(vd.z, k requires 0 <= k < vd.z =>
          if Reached(marked, vd, i, j, k) then voxels[i][j][k] + {o} else voxels[i][j][k])))
  }

  /** Each marked cell writes `o` into all seven of its targets. */
  lemma DilateMarksTargets(voxels: Grid3<Orients>, vd: Dims, marked: Grid3<bool>, o: nat,
                           x: int, y: int, z: int, dx: int, dy: int, dz: int)
    requires Shaped(voxels, vd) && Shaped(marked, vd)
    requires MarkedAt(marked, vd, x, y, z) && Offset(dx, dy, dz)
    ensures InGrid(vd, x + dx, y + dy, z + dz) && o in Dilate(voxels, vd, marked, o)[x + dx][y + dy][z + dz]
  {
    assert Reached(marked, vd, x + dx, y + dy, z + dz);
  }

  /** The expansion touches only the targets of marked cells: a cell that
      gains `o` is one step up from a marked cell. */
  lemma DilateOnlyTargets(voxels: Grid3<Orients>, vd: Dims, marked: Grid3<bool>, o: nat, i: int, j: int, k: int)
    requires Shaped(voxels, vd) && Shaped(marked, vd) && InGrid(vd, i, j, k)
    requires o in Dilate(voxels, vd, marked, o)[i][j][k] && o !in voxels[i][j][k]
    ensures exists dx, dy, dz :: Offset(dx, dy, dz) && MarkedAt(marked, vd, i - dx, j - dy, k - dz)
  {
    if MarkedAt(marked, vd, i - 1, j - 1, k - 1) {
      assert Offset(1, 1, 1);
    } else if MarkedAt(marked, vd, i - 1, j - 1, k) {
      assert Offset(1, 1, 0);
    } else if MarkedAt(marked, vd, i - 1, j, k - 1) {
      assert Offset(1, 0, 1);
    } else if MarkedAt(marked, vd, i - 1, j, k) {
      assert Offset(1, 0, 0);
    } else if MarkedAt(marked, vd, i, j - 1, k) {
      assert Offset(0, 1, 0);
    } else if MarkedAt(marked, vd, i, j - 1, k - 1) {
      assert Offset(0, 1, 1);
    } else {
      assert MarkedAt(marked, vd, i - 0, j - 0, k - 1) && Offset(0, 0, 1);
    }
  }

  /** The expansion keeps every orientation already present and changes no
      orientation other than `o`. */
  lemma DilateKeepsOthers(voxels: Grid3<Orients>, vd: Dims, marked: Grid3<bool>, o: nat, i: int, j: int, k: int)
    requires Shaped(voxels, vd) && Shaped(marked, vd) && InGrid(vd, i, j, k)
    ensures voxels[i][j][k] <= Dilate(voxels, vd, marked, o)[i][j][k]
    ensures forall o' :: o' != o ==> (o' in Dilate(voxels, vd, marked, o)[i][j][k] <==> o' in voxels[i][j][k])
  {
  }

  /** The cells of `voxels` that hold orientation `o`. */
  ghost function CellsWith(voxels: Grid3<Orients>, vd: Dims, o: nat): set<Cell>
    requires Shaped(voxels, vd)
  {
    set i, j, k | 0 <= i < vd.x && 0 <= j < vd.y && 0 <= k < vd.z && o in voxels[i][j][k] :: Cell(i, j, k)
  }

  /** `count_if` over the cells of row `(i, j)` from `k` on. */
  function CountRow(row: seq<Orients>, k: nat, o: nat): nat
    decreases |row| - k
  {
    if k >= |row| then 0 else (if o in row[k] then 1 else 0) + CountRow(row, k + 1, o)
  }

  /** `count_if` over the rows of a plane from `j` on. */
  function CountPlane(plane: seq<seq<Orients>>, j: nat, o: nat): nat
    decreases |plane| - j
  {
    if j >= |plane| then 0 else CountRow(plane[j], 0, o) + CountPlane(plane, j + 1, o)
  }

  /** `count_if` over the planes of a grid from `i` on. */
  function CountGrid(voxels: Grid3<Orients>, i: nat, o: nat): nat
    decreases |voxels| - i
  {
    if i >= |voxels| then 0 else CountPlane(voxels[i], 0, o) + CountGrid(voxels, i + 1, o)
  }

  /** The returned volume: `count_if` over the grid's storage, which holds
      the planes, rows and cells in order. */
  function Volume(voxels: Grid3<Orients>, o: nat): nat {
    CountGrid(voxels, 0, o)
  }

  ghost function RowCells(voxels: Grid3<Orients>, vd: Dims, i: nat, j: nat, k: nat, o: nat): set<Cell>
    requires Shaped(voxels, vd) && i < vd.x && j < vd.y
  {
    set k' | k <= k' < vd.z && o in voxels[i][j][k'] :: Cell(i, j, k')
  }

  ghost function PlaneCells(voxels: Grid3<Orients>, vd: Dims, i: nat, j: nat, o: nat): set<Cell>
    requires Shaped(voxels, vd) && i < vd.x
  {
    set j', k' | j <= j' < vd.y && 0 <= k' < vd.z && o in voxels[i][j'][k'] :: Cell(i, j', k')
  }

  ghost function GridCells(voxels: Grid3<Orients>, vd: Dims, i: nat, o: nat): set<Cell>
    requires Shaped(voxels, vd)
  {
    set i', j', k' | i <= i' < vd.x && 0 <= j' < vd.y && 0 <= k' < vd.z && o in voxels[i'][j'][k'] :: Cell(i', j', k')
  }

  lemma {:induction false} RowCount(voxels: Grid3<Orients>, vd: Dims, i: nat, j: nat, k: nat, o: nat)
    requires Shaped(voxels, vd) && i < vd.x && j < vd.y
    ensures CountRow(voxels[i][j], k, o) == |RowCells(voxels, vd, i, j, k, o)|
    decreases vd.z - k
  {
    if k < vd.z {
      RowCount(voxels, vd, i, j, k + 1, o);
      var here: set<Cell> := if o in voxels[i][j][k] then {Cell(i, j, k)} else {};
      assert RowCells(voxels, vd, i, j, k, o) == here + RowCells(voxels, vd, i, j, k + 1, o);
      assert here * RowCells(voxels, vd, i, j, k + 1, o) == {};
    } else {
      assert RowCells(voxels, vd, i, j, k, o) == {};
    }
  }

  lemma {:induction false} PlaneCount(voxels: Grid3<Orients>, vd: Dims, i: nat, j: nat, o: nat)
    requires Shaped(voxels, vd) && i < vd.x
    ensures CountPlane(voxels[i], j, o) == |PlaneCells(voxels, vd, i, j, o)|
    decreases vd.y - j
  {
    if j < vd.y {
      PlaneCount(voxels, vd, i, j + 1, o);
      RowCount(voxels, vd, i, j, 0, o);
      var row := RowCells(voxels, vd, i, j, 0, o);
      var rest := PlaneCells(voxels, vd, i, j + 1, o);
      assert PlaneCells(voxels, vd, i, j, o) == row + rest;
      assert row * rest == {};
    } else {
      assert PlaneCells(voxels, vd, i, j, o) == {};
    }
  }

  lemma {:induction false} GridCount(voxels: Grid3<Orients>, vd: Dims, i: nat, o: nat)
    requires Shaped(voxels, vd)
    ensures CountGrid(voxels, i, o) == |GridCells(voxels, vd, i, o)|
    decreases vd.x - i
  {
    if i < vd.x {
      GridCount(voxels, vd, i + 1, o);
      PlaneCount(voxels, vd, i, 0, o);
      var plane := PlaneCells(voxels, vd, i, 0, o);
      var rest := GridCells(voxels, vd, i + 1, o);
      assert GridCells(voxels, vd, i, o) == plane + rest;
      assert plane * rest == {};
    } else {
      assert GridCells(voxels, vd, i, o) == {};
    }
  }

  /** The volume is the number of cells holding orientation `o`. */
  lemma VolumeCounts(voxels: Grid3<Orients>, vd: Dims, o: nat)
    requires Shaped(voxels, vd)
    ensures Volume(voxels, o) == |CellsWith(voxels, vd, o)|
  {
    GridCount(voxels, vd, 0, o);
    assert GridCells(voxels, vd, 0, o) == CellsWith(voxels, vd, o);
  }

  /** The expansion never lowers the volume of `o`: it only adds `o`. */
  lemma DilateVolume(voxels: Grid3<Orients>, vd: Dims, marked: Grid3<bool>, o: nat)
    requires Shaped(voxels, vd) && Shaped(marked, vd)
    ensures Volume(voxels, o) <= Volume(Dilate(voxels, vd, marked, o), o)
  {
    var r := Dilate(voxels, vd, marked, o);
    VolumeCounts(voxels, vd, o);
    VolumeCounts(r, vd, o);
    var before, after := CellsWith(voxels, vd, o), CellsWith(r, vd, o);
    assert before <= after;
    assert after == before + (after - before);
    assert before * (after - before) == {};
  }

  /** The cells the expansion acts on: surface voxels that are not carved. */
  function Marked(carved: Grid3<bool>, actual: Grid3<bool>, vd: Dims): (r: Grid3<bool>)
    requires Shaped(carved, vd) && Shaped(actual, vd)
    ensures Shaped(r, vd)
  {
    seq(vd.x, i requires 0 <= i < vd.x =>
      seq(vd.y, j requires 0 <= j < vd.y =>
        seq(vd.z, k requires 0 <= k < vd.z => !carved[i][j][k] && actual[i][j][k])))
  }

  /** The steps between rendering and expansion for a positive carver size:
      flood-fill the carver from the outside, convexify the surface, and keep
      the convex cells that are not carved. Every rendered surface voxel is
      kept. */
  method CarveAndConvexify(surface: Grid3<bool>, vd: Dims, carver: nat) returns (marked: Grid3<bool>, good: set<Cell>)
    requires Shaped(surface, vd) && 1 <= carver
    ensures FloodFilled(surface, vd, carver, good)
    ensures marked == Marked(CarvedGrid(vd, carver, good), Convex(surface, vd), vd)
    ensures forall x, y, z :: MarkedAt(surface, vd, x, y, z) ==> MarkedAt(marked, vd, x, y, z)
  {
    ghost var rank: map<Cell, nat>, parent: map<Cell, Cell>;
    good, rank, parent := Carve(surface, vd, carver);
    RootedReached(vd, carver, good, rank, parent);
    marked := Marked(CarvedGrid(vd, carver, good), Convex(surface, vd), vd);
    KeepsSurface(surface, vd, carver, good);
  }

  /** No rendered surface voxel is carved or cleared by convexifying. */
  lemma KeepsSurface(surface: Grid3<bool>, vd: Dims, carver: nat, good: set<Cell>)
    requires Shaped(surface, vd)
    requires forall c :: c in good ==> InRange(vd, carver, c) && Clear(surface, vd, carver, c)
    ensures forall x, y, z :: MarkedAt(surface, vd, x, y, z) ==>
      MarkedAt(Marked(CarvedGrid(vd, carver, good), Convex(surface, vd), vd), vd, x, y, z)
  {
    var carved := CarvedGrid(vd, carver, good);
    var marked := Marked(carved, Convex(surface, vd), vd);
    forall x, y, z | MarkedAt(surface, vd, x, y, z)
      ensures MarkedAt(marked, vd, x, y, z)
    {
      ConvexNeverClears(surface, vd, x, y, z);
      if carved[x][y][z] {
        CarvedNotSurface(surface, vd, carver, good, x, y, z);
      }
    }
  }

  /** Everything after rendering: with a positive carver size, carve and
      convexify the rendered `surface`; then expand the uncarved surface
      into orientation `o` of `voxels` and count its cells. Every rendered
      surface voxel in the expansion's range survives carving and
      convexifying, so all seven of its targets get `o`; no other
      orientation changes; the volume counts the cells holding `o`. */
  method Voxelize(surface: Grid3<bool>, voxels: Grid3<Orients>, vd: Dims, o: nat, carver: nat)
    returns (voxels': Grid3<Orients>, volume: nat, good: set<Cell>)
    requires Shaped(surface, vd) && Shaped(voxels, vd)
    requires 1 <= vd.x && 1 <= vd.y && 1 <= vd.z
    ensures Shaped(voxels', vd)
    ensures volume == |CellsWith(voxels', vd, o)|
    ensures forall i, j, k :: InGrid(vd, i, j, k) ==> voxels[i][j][k] <= voxels'[i][j][k]
    ensures forall i, j, k, o' :: InGrid(vd, i, j, k) && o' != o ==>
      (o' in voxels'[i][j][k] <==> o' in voxels[i][j][k])
    ensures forall x, y, z, dx, dy, dz ::
      MarkedAt(surface, vd, x, y, z) && Offset(dx, dy, dz) ==>
        InGrid(vd, x + dx, y + dy, z + dz) && o in voxels'[x + dx][y + dy][z + dz]
    ensures carver == 0 ==> good == {} && voxels' == Dilate(voxels, vd, surface, o)
    ensures carver > 0 ==>
      FloodFilled(surface, vd, carver, good) &&
      voxels' == Dilate(voxels, vd, Marked(CarvedGrid(vd, carver, good), Convex(surface, vd), vd), o)
  {
    var marked := surface;
    good := {};
    if carver > 0 {
      marked, good := CarveAndConvexify(surface, vd, carver);
    }
    voxels' := Dilate(voxels, vd, marked, o);
    forall x, y, z, dx, dy, dz | MarkedAt(surface, vd, x, y, z) && Offset(dx, dy, dz)
      ensures InGrid(vd, x + dx, y + dy, z + dz) && o in voxels'[x + dx][y + dy][z + dz]
    {
      DilateMarksTargets(voxels, vd, marked, o, x, y, z, dx, dy, dz);
    }
    forall i, j, k | InGrid(vd, i, j, k)
      ensures voxels[i][j][k] <= voxels'[i][j][k]
      ensures forall o' :: o' != o ==> (o' in voxels'[i][j][k] <==> o' in voxels[i][j][k])
    {
      DilateKeepsOthers(voxels, vd, marked, o, i, j, k);
    }
    volume := Volume(voxels', o);
    VolumeCounts(voxels', vd, o);
  }
}
