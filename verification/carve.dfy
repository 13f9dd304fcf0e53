/**
  The carving step of `voxelize` (C++) and `Mesh.Voxelize` (C#): a flood fill
  over the corners of `carver x carver x carver` blocks, started from every
  corner on a face of the grid, that carves out each block holding no
  surface voxel and reachable from the outside through such blocks. Carved
  cells are later excluded from the part's voxels, so holes wider than the
  carver stay open while the rest of the interior is filled in.
*/
module Carving {
  import opened Grid
  import opened Wrappers

  /** A block corner on the fill stack (`geo::point3<int>`); neighbours of
      corners on a face lie outside the grid, hence `int`. */
  datatype Cell = Cell(x: int, y: int, z: int)

  /** The block with its corner at `c` lies inside the grid: the range test
      that a popped corner must pass before it is examined. */
  predicate InRange(vd: Dims, carver: nat, c: Cell) {
    0 <= c.x <= vd.x - carver && 0 <= c.y <= vd.y - carver && 0 <= c.z <= vd.z - carver
  }

  /** All corners that pass the range test. */
  function Corners(vd: Dims, carver: nat): (r: set<Cell>)
    ensures forall c :: c in r <==> InRange(vd, carver, c)
  {
    set x: int, y: int, z: int | 0 <= x <= vd.x - carver && 0 <= y <= vd.y - carver && 0 <= z <= vd.z - carver
      :: Cell(x, y, z)
  }

  /** Grid cell `(i, j, k)` lies in the block with its corner at `c`. */
  predicate InBlock(carver: nat, c: Cell, i: int, j: int, k: int) {
    c.x <= i < c.x + carver && c.y <= j < c.y + carver && c.z <= k < c.z + carver
  }

  /** A corner in range has its whole block inside the grid. */
  lemma BlockInGrid(vd: Dims, carver: nat, c: Cell, i: int, j: int, k: int)
    requires InRange(vd, carver, c) && InBlock(carver, c, i, j, k)
    ensures InGrid(vd, i, j, k)
  {
  }

  /** The C++ range test as written. `extent - carver_size` is computed in
      `std::size_t`, and the non-negative `int` corner is compared with it as
      `std::size_t`, so a carver wider than the grid makes the bound wrap to a
      huge value. */
  predicate CppRangeTest(vd: Dims, carver: nat, c: Cell) {
    && 0 <= c.x && 0 <= c.y && 0 <= c.z
    && c.x <= AsSizeT(vd.x - carver) && c.y <= AsSizeT(vd.y - carver) && c.z <= AsSizeT(vd.z - carver)
  }

  /** While the carver fits the grid, the C++ test is the range test. */
  lemma CppRangeTestAgrees(vd: Dims, carver: nat, c: Cell)
    requires carver <= vd.x < SizeTRange && carver <= vd.y < SizeTRange && carver <= vd.z < SizeTRange
    ensures CppRangeTest(vd, carver, c) <==> InRange(vd, carver, c)
  {
  }

  /** A carver wider than the grid: in a 1x1x1 grid with a carver of 2, the
      C++ test passes corner (0, 0, 0), whose block reaches cell (1, 1, 1)
      outside the grid; the range test rejects that corner. */
  lemma CppRangeTestAdmitsOversizedCarver()
    ensures var vd, c := Dims(1, 1, 1), Cell(0, 0, 0);
      && CppRangeTest(vd, 2, c) && InBlock(2, c, 1, 1, 1) && !InGrid(vd, 1, 1, 1)
      && !InRange(vd, 2, c)
  {
    assert AsSizeT(1 - 2) == SizeTRange - 1;
  }

  /** The `good` test: no surface voxel lies in the block at `c`. */
  predicate Clear(surface: Grid3<bool>, vd: Dims, carver: nat, c: Cell)
    requires Shaped(surface, vd) && InRange(vd, carver, c)
  {
    forall i, j, k | c.x <= i < c.x + carver && c.y <= j < c.y + carver && c.z <= k < c.z + carver ::
      !surface[i][j][k]
  }

  /** The six corners pushed after carving at `c`, in push order (the last
      one is popped first). */
  function Neighbours(c: Cell): seq<Cell> {
    [Cell(c.x - 1, c.y, c.z), Cell(c.x + 1, c.y, c.z),
     Cell(c.x, c.y - 1, c.z), Cell(c.x, c.y + 1, c.z),
     Cell(c.x, c.y, c.z - 1), Cell(c.x, c.y, c.z + 1)]
  }

  /** A cell of the grid on which the fill is seeded: on a low face, or at
      `extent - carver` along some axis. */
  predicate IsSeed(vd: Dims, carver: nat, c: Cell) {
    InGrid(vd, c.x, c.y, c.z) &&
    (c.x == 0 || c.y == 0 || c.z == 0 ||
     c.x == vd.x - carver || c.y == vd.y - carver || c.z == vd.z - carver)
  }

  /** The innermost seeding loop: `z` from `z` up. */
  function SeedRow(vd: Dims, carver: nat, x: nat, y: nat, z: nat): (r: seq<Cell>)
    requires x < vd.x && y < vd.y
    ensures forall c :: c in r <==> IsSeed(vd, carver, c) && c.x == x && c.y == y && z <= c.z
    decreases vd.z - z
  {
    if z >= vd.z then []
    else
      var rest := SeedRow(vd, carver, x, y, z + 1);
      if IsSeed(vd, carver, Cell(x, y, z)) then [Cell(x, y, z)] + rest else rest
  }

  /** The middle seeding loop: `y` from `y` up. */
  function SeedPlane(vd: Dims, carver: nat, x: nat, y: nat): (r: seq<Cell>)
    requires x < vd.x
    ensures forall c :: c in r <==> IsSeed(vd, carver, c) && c.x == x && y <= c.y
    decreases vd.y - y
  {
    if y >= vd.y then [] else SeedRow(vd, carver, x, y, 0) + SeedPlane(vd, carver, x, y + 1)
  }

  /** The seeding loops: every face cell, pushed in `x, y, z` order. */
  function Seeds(vd: Dims, carver: nat, x: nat): (r: seq<Cell>)
    ensures forall c :: c in r <==> IsSeed(vd, carver, c) && x <= c.x
    decreases vd.x - x
  {
    if x >= vd.x then [] else SeedPlane(vd, carver, x, 0) + Seeds(vd, carver, x + 1)
  }

  /** Every carved corner was reached from a seed: it is a seed itself, or a
      neighbour of a corner carved earlier (`rank` is the order of carving,
      `parent` the corner whose push reached it). */
  ghost predicate Rooted(vd: Dims, carver: nat, good: set<Cell>, rank: map<Cell, nat>, parent: map<Cell, Cell>) {
    forall c :: c in good ==>
      c in rank &&
      (IsSeed(vd, carver, c) ||
       (c in parent && parent[c] in good && parent[c] in rank &&
        c in Neighbours(parent[c]) && rank[parent[c]] < rank[c]))
  }

  /** Every visited corner is in range, and carved exactly when clear. */
  ghost predicate VisitedOk(surface: Grid3<bool>, vd: Dims, carver: nat, visited: set<Cell>, good: set<Cell>)
    requires Shaped(surface, vd)
  {
    good <= visited &&
    forall v :: v in visited ==> InRange(vd, carver, v) && (Clear(surface, vd, carver, v) <==> v in good)
  }

  /** Every seed and every neighbour of a carved corner that is in range is
      visited or still on the stack. */
  ghost predicate Pending(vd: Dims, carver: nat, stack: seq<Cell>, visited: set<Cell>, good: set<Cell>) {
    (forall s :: IsSeed(vd, carver, s) && InRange(vd, carver, s) ==> s in visited || s in stack) &&
    (forall g, n :: g in good && n in Neighbours(g) && InRange(vd, carver, n) ==> n in visited || n in stack)
  }

  /** Each stack entry is a seed (`None`) or was pushed by a carved corner. */
  ghost predicate Pushed(vd: Dims, carver: nat, stack: seq<Cell>, from: seq<Option<Cell>>, good: set<Cell>) {
    |from| == |stack| &&
    forall a :: 0 <= a < |stack| ==>
      (from[a].None? ==> IsSeed(vd, carver, stack[a])) &&
      (from[a].Some? ==> from[a].value in good && stack[a] in Neighbours(from[a].value))
  }

  /** The ranks handed out so far are below the number of carved corners. */
  ghost predicate Ranked(good: set<Cell>, rank: map<Cell, nat>) {
    forall g :: g in good ==> g in rank && rank[g] < |good|
  }

  /** The loop invariant of the fill. */
  ghost predicate FillInv(surface: Grid3<bool>, vd: Dims, carver: nat, stack: seq<Cell>, from: seq<Option<Cell>>,
                          visited: set<Cell>, good: set<Cell>, rank: map<Cell, nat>, parent: map<Cell, Cell>)
    requires Shaped(surface, vd)
  {
    VisitedOk(surface, vd, carver, visited, good) &&
    Pending(vd, carver, stack, visited, good) &&
    Pushed(vd, carver, stack, from, good) &&
    Rooted(vd, carver, good, rank, parent) &&
    Ranked(good, rank)
  }

  /** The flood fill (the `while (not stack.empty())` loop). The corners it
      carves are exactly the clear ones connected to a clear seed through
      clear corners: every carved block is clear, the carved set contains
      every clear seed and every clear neighbour of a carved corner, and each
      carved corner traces back to a seed. */
  method Carve(surface: Grid3<bool>, vd: Dims, carver: nat)
    returns (good: set<Cell>, ghost rank: map<Cell, nat>, ghost parent: map<Cell, Cell>)
    requires Shaped(surface, vd)
    requires 1 <= carver
    ensures forall c :: c in good ==> InRange(vd, carver, c) && Clear(surface, vd, carver, c)
    ensures forall s :: IsSeed(vd, carver, s) && InRange(vd, carver, s) && Clear(surface, vd, carver, s) ==> s in good
    ensures forall c, n :: c in good && n in Neighbours(c) && InRange(vd, carver, n) && Clear(surface, vd, carver, n) ==> n in good
    ensures Rooted(vd, carver, good, rank, parent)
  {
    var stack := Seeds(vd, carver, 0);
    ghost var from: seq<Option<Cell>> := seq(|stack|, _ => None);
    var visited: set<Cell> := {};
    good, rank, parent := {}, map[], map[];
    while stack != []
      invariant FillInv(surface, vd, carver, stack, from, visited, good, rank, parent)
      decreases |Corners(vd, carver) - visited|, |stack|
    {
      stack, from, visited, good, rank, parent := FillStep(surface, vd, carver, stack, from, visited, good, rank, parent);
    }
  }

  /** One pop of the fill: a corner out of range or already visited is
      dropped; otherwise it is marked visited and, when clear, carved and its
      six neighbours pushed. */
  method FillStep(surface: Grid3<bool>, vd: Dims, carver: nat, stack: seq<Cell>, ghost from: seq<Option<Cell>>,
                  visited: set<Cell>, good: set<Cell>, ghost rank: map<Cell, nat>, ghost parent: map<Cell, Cell>)
    returns (stack': seq<Cell>, ghost from': seq<Option<Cell>>, visited': set<Cell>, good': set<Cell>,
             ghost rank': map<Cell, nat>, ghost parent': map<Cell, Cell>)
    requires Shaped(surface, vd) && stack != []
    requires FillInv(surface, vd, carver, stack, from, visited, good, rank, parent)
    ensures FillInv(surface, vd, carver, stack', from', visited', good', rank', parent')
    ensures visited <= visited' && good <= good'
    ensures visited' == visited ==> |stack'| < |stack|
    ensures visited' != visited ==> |Corners(vd, carver) - visited'| < |Corners(vd, carver) - visited|
  {
    var c := stack[|stack| - 1];
    ghost var src := from[|from| - 1];
    stack', from' := stack[..|stack| - 1], from[..|from| - 1];
    visited', good', rank', parent' := visited, good, rank, parent;
    if !InRange(vd, carver, c) || c in visited {
      DropKeeps(surface, vd, carver, stack, from, visited, good, rank, parent);
      return;
    }
    visited' := visited + {c};
    assert Corners(vd, carver) - visited' == (Corners(vd, carver) - visited) - {c};
    if !Clear(surface, vd, carver, c) {
      VisitKeeps(surface, vd, carver, stack, from, visited, good, rank, parent);
      return;
    }
    rank' := rank[c := |good|];
    parent' := if src.Some? then parent[c := src.value] else parent;
    good' := good + {c};
    stack' := stack' + Neighbours(c);
    from' := from' + seq(6, _ => Some(c));
    CarveKeeps(surface, vd, carver, stack, from, visited, good, rank, parent);
  }

  /** Dropping a corner that is out of range or already visited keeps the
      invariant. */
  lemma DropKeeps(surface: Grid3<bool>, vd: Dims, carver: nat, stack: seq<Cell>, from: seq<Option<Cell>>,
                  visited: set<Cell>, good: set<Cell>, rank: map<Cell, nat>, parent: map<Cell, Cell>)
    requires Shaped(surface, vd) && stack != []
    requires FillInv(surface, vd, carver, stack, from, visited, good, rank, parent)
    requires !InRange(vd, carver, stack[|stack| - 1]) || stack[|stack| - 1] in visited
    ensures FillInv(surface, vd, carver, stack[..|stack| - 1], from[..|from| - 1], visited, good, rank, parent)
  {
    assert stack == stack[..|stack| - 1] + [stack[|stack| - 1]];
  }

  /** Visiting a corner whose block holds a surface voxel keeps the
      invariant. */
  lemma VisitKeeps(surface: Grid3<bool>, vd: Dims, carver: nat, stack: seq<Cell>, from: seq<Option<Cell>>,
                   visited: set<Cell>, good: set<Cell>, rank: map<Cell, nat>, parent: map<Cell, Cell>)
    requires Shaped(surface, vd) && stack != []
    requires FillInv(surface, vd, carver, stack, from, visited, good, rank, parent)
    requires InRange(vd, carver, stack[|stack| - 1]) && stack[|stack| - 1] !in visited
    requires !Clear(surface, vd, carver, stack[|stack| - 1])
    ensures FillInv(surface, vd, carver, stack[..|stack| - 1], from[..|from| - 1],
                    visited + {stack[|stack| - 1]}, good, rank, parent)
  {
    assert stack == stack[..|stack| - 1] + [stack[|stack| - 1]];
  }

  /** Carving a clear corner, recording its rank and parent and pushing its
      neighbours keeps the invariant. */
  lemma CarveKeeps(surface: Grid3<bool>, vd: Dims, carver: nat, stack: seq<Cell>, from: seq<Option<Cell>>,
                   visited: set<Cell>, good: set<Cell>, rank: map<Cell, nat>, parent: map<Cell, Cell>)
    requires Shaped(surface, vd) && stack != []
    requires FillInv(surface, vd, carver, stack, from, visited, good, rank, parent)
    requires InRange(vd, carver, stack[|stack| - 1]) && stack[|stack| - 1] !in visited
    requires Clear(surface, vd, carver, stack[|stack| - 1])
    ensures
      var c := stack[|stack| - 1];
      var src := from[|from| - 1];
      FillInv(surface, vd, carver, stack[..|stack| - 1] + Neighbours(c), from[..|from| - 1] + seq(6, _ => Some(c)),
              visited + {c}, good + {c}, rank[c := |good|],
              if src.Some? then parent[c := src.value] else parent)
  {
    var c := stack[|stack| - 1];
    var src := from[|from| - 1];
    var stack' := stack[..|stack| - 1] + Neighbours(c);
    var from' := from[..|from| - 1] + seq(6, _ => Some(c));
    var good' := good + {c};
    var rank' := rank[c := |good|];
    var parent' := if src.Some? then parent[c := src.value] else parent;
    assert stack == stack[..|stack| - 1] + [c];
    assert |good'| == |good| + 1;
    assert VisitedOk(surface, vd, carver, visited + {c}, good');
    CarvePending(vd, carver, stack, visited, good);
    CarvePushed(vd, carver, stack, from, good);
    assert Rooted(vd, carver, good', rank', parent');
    assert Ranked(good', rank');
  }

  /** After carving `c` and pushing its neighbours, the seeds and the
      neighbours of carved corners are still visited or pending. */
  lemma CarvePending(vd: Dims, carver: nat, stack: seq<Cell>, visited: set<Cell>, good: set<Cell>)
    requires stack != [] && Pending(vd, carver, stack, visited, good)
    ensures
      var c := stack[|stack| - 1];
      Pending(vd, carver, stack[..|stack| - 1] + Neighbours(c), visited + {c}, good + {c})
  {
    var c := stack[|stack| - 1];
    var stack' := stack[..|stack| - 1] + Neighbours(c);
    assert stack == stack[..|stack| - 1] + [c];
    forall g, n | g in good + {c} && n in Neighbours(g) && InRange(vd, carver, n)
      ensures n in visited + {c} || n in stack'
    {
      if g == c {
        assert n in Neighbours(c);
      }
    }
  }

  /** The six entries pushed for `c` are recorded as pushed by `c`. */
  lemma CarvePushed(vd: Dims, carver: nat, stack: seq<Cell>, from: seq<Option<Cell>>, good: set<Cell>)
    requires stack != [] && Pushed(vd, carver, stack, from, good)
    ensures
      var c := stack[|stack| - 1];
      Pushed(vd, carver, stack[..|stack| - 1] + Neighbours(c), from[..|from| - 1] + seq(6, _ => Some(c)), good + {c})
  {
    var c := stack[|stack| - 1];
    var stack' := stack[..|stack| - 1] + Neighbours(c);
    var from' := from[..|from| - 1] + seq(6, _ => Some(c));
    forall a | 0 <= a < |stack'|
      ensures (from'[a].None? ==> IsSeed(vd, carver, stack'[a])) &&
              (from'[a].Some? ==> from'[a].value in good + {c} && stack'[a] in Neighbours(from'[a].value))
    {
      if a >= |stack| - 1 {
        assert from'[a] == Some(c);
        assert stack'[a] == Neighbours(c)[a - (|stack| - 1)];
      } else {
        assert from'[a] == from[a] && stack'[a] == stack[a];
      }
    }
  }

  /** The `carved` grid: a cell is carved when it lies in the block of a
      carved corner. */
  function CarvedGrid(vd: Dims, carver: nat, good: set<Cell>): (r: Grid3<bool>)
    ensures Shaped(r, vd)
    ensures forall i, j, k :: InGrid(vd, i, j, k) ==>
      (r[i][j][k] <==> exists c :: c in good && InBlock(carver, c, i, j, k))
  {
    seq(vd.x, i => seq(vd.y, j => seq(vd.z, k => exists c :: c in good && InBlock(carver, c, i, j, k))))
  }

  /** Carving never removes a surface voxel: every carved cell lies in a
      clear block. */
  lemma CarvedNotSurface(surface: Grid3<bool>, vd: Dims, carver: nat, good: set<Cell>, i: int, j: int, k: int)
    requires Shaped(surface, vd) && InGrid(vd, i, j, k)
    requires forall c :: c in good ==> InRange(vd, carver, c) && Clear(surface, vd, carver, c)
    requires CarvedGrid(vd, carver, good)[i][j][k]
    ensures !surface[i][j][k]
  {
    var c :| c in good && InBlock(carver, c, i, j, k);
  }

  /** A path through carved corners from a seed to `c`, each step to one of
      the six neighbours. */
  ghost predicate PathIn(vd: Dims, carver: nat, good: set<Cell>, path: seq<Cell>) {
    |path| >= 1 && IsSeed(vd, carver, path[0]) &&
    (forall a :: 0 <= a < |path| ==> path[a] in good) &&
    (forall a :: 0 <= a < |path| - 1 ==> path[a + 1] in Neighbours(path[a]))
  }

  /** Every corner of `good` is reached from a seed through corners of `good`. */
  ghost predicate AllReached(vd: Dims, carver: nat, good: set<Cell>) {
    forall c :: c in good ==> exists path :: PathIn(vd, carver, good, path) && path[|path| - 1] == c
  }

  /** Every carved corner is connected to a seed through carved corners. */
  lemma {:induction false} ReachedFromSeed(vd: Dims, carver: nat, good: set<Cell>, rank: map<Cell, nat>,
                                           parent: map<Cell, Cell>, c: Cell)
    returns (path: seq<Cell>)
    requires Rooted(vd, carver, good, rank, parent) && c in good
    ensures PathIn(vd, carver, good, path) && path[|path| - 1] == c
    decreases rank[c]
  {
    if IsSeed(vd, carver, c) {
      path := [c];
    } else {
      var prefix := ReachedFromSeed(vd, carver, good, rank, parent, parent[c]);
      path := prefix + [c];
    }
  }

  /** `good` is what the flood fill carves: clear corners in range, holding
      every clear seed, closed under clear neighbours, and each reached from
      a seed. */
  ghost predicate FloodFilled(surface: Grid3<bool>, vd: Dims, carver: nat, good: set<Cell>)
    requires Shaped(surface, vd)
  {
    && (forall c :: c in good ==> InRange(vd, carver, c) && Clear(surface, vd, carver, c))
    && (forall s :: IsSeed(vd, carver, s) && InRange(vd, carver, s) && Clear(surface, vd, carver, s) ==> s in good)
    && (forall c, n :: c in good && n in Neighbours(c) && InRange(vd, carver, n) && Clear(surface, vd, carver, n) ==> n in good)
    && AllReached(vd, carver, good)
  }

  /** A rooted carved set has every corner reached from a seed. */
  lemma RootedReached(vd: Dims, carver: nat, good: set<Cell>, rank: map<Cell, nat>, parent: map<Cell, Cell>)
    requires Rooted(vd, carver, good, rank, parent)
    ensures AllReached(vd, carver, good)
  {
    forall c | c in good
      ensures exists path :: PathIn(vd, carver, good, path) && path[|path| - 1] == c
    {
      var path := ReachedFromSeed(vd, carver, good, rank, parent, c);
    }
  }
}
