/**
  The voxel occupancy primitives shared by both stackers: `can_place` and
  `place` (C++), `CanPlace` and `Place` (C#).

  The build space is a grid of booleans (occupied or free). A part is
  voxelised once per orientation into one grid of its own, where bit `o` of a
  cell says that orientation `o` fills that cell. The model writes such a bit
  set as the set of orientations it holds: `(obj & index) != 0` with
  `index == 1 << o` becomes `o in obj`, and the update
  `possible &= possible ^ obj` becomes `possible - obj`
  (`AndXorClears` states the bit-level identity).
*/
module Occupancy {
  import opened Grid

  /** Orientations of one part, one per bit of the source's `int`. */
  type Orients = set<nat>

  /** `p & (p ^ o)` keeps exactly the bits of `p` that are not in `o`. */
  lemma AndXorClears(p: bv32, o: bv32)
    ensures p & (p ^ o) == p & !o
  {
  }

  /** The exclusive end of the range examined along one axis:
      `min(x + obj.extent, space.extent)`. */
  function Clip(start: nat, extent: nat, limit: nat): nat {
    if start + extent < limit then start + extent else limit
  }

  /** Space cell `(i, j, k)` lies under the part's voxel box placed with its
      corner at `(x, y, z)`, and inside the space. */
  predicate InFootprint(sd: Dims, od: Dims, x: nat, y: nat, z: nat, i: int, j: int, k: int) {
    x <= i < Clip(x, od.x, sd.x) && y <= j < Clip(y, od.y, sd.y) && z <= k < Clip(z, od.z, sd.z)
  }

  /** Orientation `o` of the part placed at `(x, y, z)` fills space cell
      `(i, j, k)`. */
  predicate Covers(sd: Dims, obj: Grid3<Orients>, od: Dims, o: nat, x: nat, y: nat, z: nat, i: int, j: int, k: int)
    requires Shaped(obj, od)
  {
    InFootprint(sd, od, x, y, z, i, j, k) && o in obj[i - x][j - y][k - z]
  }

  /** Some cell that orientation `o` would fill at `(x, y, z)`, in a row
      before `iEnd`, is already occupied. */
  ghost predicate HitBefore(space: Grid3<bool>, sd: Dims, obj: Grid3<Orients>, od: Dims, o: nat, x: nat, y: nat, z: nat, iEnd: int)
    requires Shaped(space, sd) && Shaped(obj, od)
  {
    exists i, j, k :: Covers(sd, obj, od, o, x, y, z, i, j, k) && i < iEnd && space[i][j][k]
  }

  /** As `HitBefore`, within plane `i` and before column `jEnd`. */
  ghost predicate PlaneHitBefore(space: Grid3<bool>, sd: Dims, obj: Grid3<Orients>, od: Dims, o: nat, x: nat, y: nat, z: nat, i: int, jEnd: int)
    requires Shaped(space, sd) && Shaped(obj, od)
  {
    exists j, k :: Covers(sd, obj, od, o, x, y, z, i, j, k) && j < jEnd && space[i][j][k]
  }

  /** As `HitBefore`, within row `(i, j)` and before cell `kEnd`. */
  ghost predicate RowHitBefore(space: Grid3<bool>, sd: Dims, obj: Grid3<Orients>, od: Dims, o: nat, x: nat, y: nat, z: nat, i: int, j: int, kEnd: int)
    requires Shaped(space, sd) && Shaped(obj, od)
  {
    exists k :: Covers(sd, obj, od, o, x, y, z, i, j, k) && k < kEnd && space[i][j][k]
  }

  /** Orientation `o` at `(x, y, z)` would fill an occupied cell. */
  predicate Collides(space: Grid3<bool>, sd: Dims, obj: Grid3<Orients>, od: Dims, o: nat, x: nat, y: nat, z: nat)
    requires Shaped(space, sd) && Shaped(obj, od)
  {
    exists i | x <= i < Clip(x, od.x, sd.x) ::
      exists j | y <= j < Clip(y, od.y, sd.y) ::
        exists k | z <= k < Clip(z, od.z, sd.z) ::
          Covers(sd, obj, od, o, x, y, z, i, j, k) && space[i][j][k]
  }

  /** The orientations of `possible` that collide nowhere at `(x, y, z)`. */
  function Placeable(space: Grid3<bool>, sd: Dims, possible: Orients, obj: Grid3<Orients>, od: Dims, x: nat, y: nat, z: nat): Orients
    requires Shaped(space, sd) && Shaped(obj, od)
  {
    set o | o in possible && !Collides(space, sd, obj, od, o, x, y, z)
  }

  /** `can_place`: of the orientations in `possible`, those that fill no
      occupied cell when the part's corner is at `(x, y, z)`. The source
      returns 0 as soon as no orientation is left; the result is the same. */
  method CanPlace(space: Grid3<bool>, sd: Dims, possible: Orients, obj: Grid3<Orients>, od: Dims, x: nat, y: nat, z: nat)
    returns (r: Orients)
    requires Shaped(space, sd) && Shaped(obj, od)
    ensures r == Placeable(space, sd, possible, obj, od, x, y, z)
  {
    r := possible;
    var iEnd := Clip(x, od.x, sd.x);
    var i := x;
    while i < iEnd
      invariant x <= i && (x <= iEnd ==> i <= iEnd)
      invariant forall o :: o in r <==> o in possible && !HitBefore(space, sd, obj, od, o, x, y, z, i)
    {
      var r' := CanPlacePlane(space, sd, r, obj, od, x, y, z, i);
      forall o | o in possible
        ensures HitBefore(space, sd, obj, od, o, x, y, z, i + 1) <==>
                HitBefore(space, sd, obj, od, o, x, y, z, i) || PlaneHitBefore(space, sd, obj, od, o, x, y, z, i, Clip(y, od.y, sd.y))
      {
        if HitBefore(space, sd, obj, od, o, x, y, z, i + 1) && !HitBefore(space, sd, obj, od, o, x, y, z, i) {
          var i0, j0, k0 :| Covers(sd, obj, od, o, x, y, z, i0, j0, k0) && i0 < i + 1 && space[i0][j0][k0];
          assert i0 == i;
        }
      }
      r := r';
      if r == {} {
        return;
      }
      i := i + 1;
    }
  }

  /** The orientations of `possible` that fill no occupied cell in plane `i`. */
  method CanPlacePlane(space: Grid3<bool>, sd: Dims, possible: Orients, obj: Grid3<Orients>, od: Dims, x: nat, y: nat, z: nat, i: nat)
    returns (r: Orients)
    requires Shaped(space, sd) && Shaped(obj, od)
    requires x <= i < Clip(x, od.x, sd.x)
    ensures forall o :: o in r <==> o in possible && !PlaneHitBefore(space, sd, obj, od, o, x, y, z, i, Clip(y, od.y, sd.y))
  {
    r := possible;
    var jEnd := Clip(y, od.y, sd.y);
    var j := y;
    while j < jEnd
      invariant y <= j && (y <= jEnd ==> j <= jEnd)
      invariant forall o :: o in r <==> o in possible && !PlaneHitBefore(space, sd, obj, od, o, x, y, z, i, j)
    {
      var r' := CanPlaceRow(space, sd, r, obj, od, x, y, z, i, j);
      forall o | o in possible
        ensures PlaneHitBefore(space, sd, obj, od, o, x, y, z, i, j + 1) <==>
                PlaneHitBefore(space, sd, obj, od, o, x, y, z, i, j) || RowHitBefore(space, sd, obj, od, o, x, y, z, i, j, Clip(z, od.z, sd.z))
      {
        if PlaneHitBefore(space, sd, obj, od, o, x, y, z, i, j + 1) && !PlaneHitBefore(space, sd, obj, od, o, x, y, z, i, j) {
          var j0, k0 :| Covers(sd, obj, od, o, x, y, z, i, j0, k0) && j0 < j + 1 && space[i][j0][k0];
          assert j0 == j;
        }
      }
      r := r';
      if r == {} {
        return;
      }
      j := j + 1;
    }
    forall o | o in possible && PlaneHitBefore(space, sd, obj, od, o, x, y, z, i, jEnd)
      ensures PlaneHitBefore(space, sd, obj, od, o, x, y, z, i, j)
    {
    }
  }

  /** The orientations of `possible` that fill no occupied cell in row `(i, j)`. */
  method CanPlaceRow(space: Grid3<bool>, sd: Dims, possible: Orients, obj: Grid3<Orients>, od: Dims, x: nat, y: nat, z: nat, i: nat, j: nat)
    returns (r: Orients)
    requires Shaped(space, sd) && Shaped(obj, od)
    requires x <= i < Clip(x, od.x, sd.x) && y <= j < Clip(y, od.y, sd.y)
    ensures forall o :: o in r <==> o in possible && !RowHitBefore(space, sd, obj, od, o, x, y, z, i, j, Clip(z, od.z, sd.z))
  {
    r := possible;
    var kEnd := Clip(z, od.z, sd.z);
    var k := z;
    while k < kEnd
      invariant z <= k && (z <= kEnd ==> k <= kEnd)
      invariant forall o :: o in r <==> o in possible && !RowHitBefore(space, sd, obj, od, o, x, y, z, i, j, k)
    {
      if space[i][j][k] {
        assert forall o :: o in obj[i - x][j - y][k - z] ==> Covers(sd, obj, od, o, x, y, z, i, j, k);
        r := r - obj[i - x][j - y][k - z];
        if r == {} {
          return;
        }
      }
      k := k + 1;
    }
  }

  /** `place`: marks every cell that orientation `o` of the part fills at
      `(x, y, z)` as occupied; every other cell keeps its value. */
  method Place(space: Grid3<bool>, sd: Dims, o: nat, obj: Grid3<Orients>, od: Dims, x: nat, y: nat, z: nat)
    returns (r: Grid3<bool>)
    requires Shaped(space, sd) && Shaped(obj, od)
    ensures Shaped(r, sd)
    ensures forall i, j, k :: InGrid(sd, i, j, k) ==>
      r[i][j][k] == (space[i][j][k] || Covers(sd, obj, od, o, x, y, z, i, j, k))
    ensures forall i, j, k :: InGrid(sd, i, j, k) && space[i][j][k] ==> r[i][j][k]
    ensures forall i, j, k :: InGrid(sd, i, j, k) && !InFootprint(sd, od, x, y, z, i, j, k) ==> r[i][j][k] == space[i][j][k]
  {
    r := space;
    var iEnd := Clip(x, od.x, sd.x);
    var i := x;
    while i < iEnd
      invariant x <= i && (x <= iEnd ==> i <= iEnd)
      invariant Shaped(r, sd)
      invariant forall i', j, k :: InGrid(sd, i', j, k) ==>
        r[i'][j][k] == (space[i'][j][k] || (i' < i && Covers(sd, obj, od, o, x, y, z, i', j, k)))
    {
      var plane := PlacePlane(r[i], sd, o, obj, od, x, y, z, i);
      r := r[i := plane];
      i := i + 1;
    }
  }

  /** Plane `i` of `place`. */
  method PlacePlane(plane: seq<seq<bool>>, sd: Dims, o: nat, obj: Grid3<Orients>, od: Dims, x: nat, y: nat, z: nat, i: nat)
    returns (r: seq<seq<bool>>)
    requires Shaped(obj, od)
    requires |plane| == sd.y && forall j :: 0 <= j < sd.y ==> |plane[j]| == sd.z
    requires x <= i < Clip(x, od.x, sd.x)
    ensures |r| == sd.y && forall j :: 0 <= j < sd.y ==> |r[j]| == sd.z
    ensures forall j, k :: 0 <= j < sd.y && 0 <= k < sd.z ==>
      r[j][k] == (plane[j][k] || Covers(sd, obj, od, o, x, y, z, i, j, k))
  {
    r := plane;
    var jEnd := Clip(y, od.y, sd.y);
    var j := y;
    while j < jEnd
      invariant y <= j && (y <= jEnd ==> j <= jEnd)
      invariant |r| == sd.y && forall j' :: 0 <= j' < sd.y ==> |r[j']| == sd.z
      invariant forall j', k :: 0 <= j' < sd.y && 0 <= k < sd.z ==>
        r[j'][k] == (plane[j'][k] || (j' < j && Covers(sd, obj, od, o, x, y, z, i, j', k)))
    {
      var row := PlaceRow(r[j], sd, o, obj, od, x, y, z, i, j);
      r := r[j := row];
      j := j + 1;
    }
  }

  /** Row `(i, j)` of `place`. */
  method PlaceRow(row: seq<bool>, sd: Dims, o: nat, obj: Grid3<Orients>, od: Dims, x: nat, y: nat, z: nat, i: nat, j: nat)
    returns (r: seq<bool>)
    requires Shaped(obj, od)
    requires |row| == sd.z
    requires x <= i < Clip(x, od.x, sd.x) && y <= j < Clip(y, od.y, sd.y)
    ensures |r| == sd.z
    ensures forall k :: 0 <= k < sd.z ==> r[k] == (row[k] || Covers(sd, obj, od, o, x, y, z, i, j, k))
  {
    r := row;
    var kEnd := Clip(z, od.z, sd.z);
    var k := z;
    while k < kEnd
      invariant z <= k && (z <= kEnd ==> k <= kEnd)
      invariant |r| == sd.z
      invariant forall k' :: 0 <= k' < sd.z ==>
        r[k'] == (row[k'] || (k' < k && Covers(sd, obj, od, o, x, y, z, i, j, k')))
    {
      r := r[k := r[k] || o in obj[i - x][j - y][k - z]];
      k := k + 1;
    }
  }

  /** `can_place` only removes orientations. */
  lemma PlaceableSubset(space: Grid3<bool>, sd: Dims, possible: Orients, obj: Grid3<Orients>, od: Dims, x: nat, y: nat, z: nat)
    requires Shaped(space, sd) && Shaped(obj, od)
    ensures Placeable(space, sd, possible, obj, od, x, y, z) <= possible
  {
  }

  /** In an empty space every orientation survives `can_place`. */
  lemma PlaceableInEmptySpace(sd: Dims, possible: Orients, obj: Grid3<Orients>, od: Dims, x: nat, y: nat, z: nat)
    requires Shaped(obj, od)
    ensures Placeable(Filled(sd, false), sd, possible, obj, od, x, y, z) == possible
  {
  }

  /** An orientation that collides nowhere covers no occupied cell. */
  lemma FreeWhereCovered(space: Grid3<bool>, sd: Dims, obj: Grid3<Orients>, od: Dims, o: nat, x: nat, y: nat, z: nat, i: int, j: int, k: int)
    requires Shaped(space, sd) && Shaped(obj, od)
    requires !Collides(space, sd, obj, od, o, x, y, z)
    requires InGrid(sd, i, j, k) && space[i][j][k]
    ensures !Covers(sd, obj, od, o, x, y, z, i, j, k)
  {
  }

  /** One placed instance: orientation `orient` of part number `part`, whose
      bounding box in that orientation is `box` and whose voxel grid is
      `voxels`, with its corner at `(x, y, z)`. */
  datatype Placed = Placed(part: nat, box: Dims, voxels: Grid3<Orients>, vd: Dims, orient: nat, x: nat, y: nat, z: nat)

  predicate WellShaped(p: Placed) {
    Shaped(p.voxels, p.vd)
  }

  /** Placed instance `p` fills space cell `(i, j, k)`. */
  predicate Fills(sd: Dims, p: Placed, i: int, j: int, k: int)
    requires WellShaped(p)
  {
    Covers(sd, p.voxels, p.vd, p.orient, p.x, p.y, p.z, i, j, k)
  }

  /** The occupied cells of `space` are exactly the cells some placed
      instance fills. */
  ghost predicate Exact(space: Grid3<bool>, sd: Dims, ps: seq<Placed>)
    requires Shaped(space, sd)
    requires forall n :: 0 <= n < |ps| ==> WellShaped(ps[n])
  {
    forall i, j, k :: InGrid(sd, i, j, k) ==>
      (space[i][j][k] <==> exists n :: 0 <= n < |ps| && Fills(sd, ps[n], i, j, k))
  }

  /** No cell is filled by two placed instances. */
  ghost predicate Separate(sd: Dims, ps: seq<Placed>)
    requires forall n :: 0 <= n < |ps| ==> WellShaped(ps[n])
  {
    forall m, n, i, j, k :: 0 <= m < n < |ps| && Fills(sd, ps[m], i, j, k) ==> !Fills(sd, ps[n], i, j, k)
  }

  /** The empty space, with nothing placed, satisfies both invariants. */
  lemma EmptyExact(sd: Dims)
    ensures Exact(Filled(sd, false), sd, []) && Separate(sd, [])
  {
  }

  /** Marking an orientation that `can_place` allowed keeps the occupied
      cells equal to the union of the placed instances, and keeps the
      instances from overlapping. */
  lemma PlaceKeepsInvariants(space: Grid3<bool>, sd: Dims, ps: seq<Placed>, p: Placed, r: Grid3<bool>)
    requires Shaped(space, sd) && Shaped(r, sd) && WellShaped(p)
    requires forall n :: 0 <= n < |ps| ==> WellShaped(ps[n])
    requires Exact(space, sd, ps) && Separate(sd, ps)
    requires !Collides(space, sd, p.voxels, p.vd, p.orient, p.x, p.y, p.z)
    requires forall i, j, k :: InGrid(sd, i, j, k) ==> r[i][j][k] == (space[i][j][k] || Fills(sd, p, i, j, k))
    ensures Exact(r, sd, ps + [p]) && Separate(sd, ps + [p])
  {
    var ps' := ps + [p];
    forall i, j, k | InGrid(sd, i, j, k)
      ensures r[i][j][k] <==> exists n :: 0 <= n < |ps'| && Fills(sd, ps'[n], i, j, k)
    {
      if Fills(sd, p, i, j, k) {
        assert Fills(sd, ps'[|ps|], i, j, k);
      } else if space[i][j][k] {
        var n :| 0 <= n < |ps| && Fills(sd, ps[n], i, j, k);
        assert Fills(sd, ps'[n], i, j, k);
      } else {
        forall n | 0 <= n < |ps'|
          ensures !Fills(sd, ps'[n], i, j, k)
        {
          if n < |ps| {
            assert ps'[n] == ps[n];
          }
        }
      }
    }
    forall m, n, i, j, k | 0 <= m < n < |ps'| && Fills(sd, ps'[m], i, j, k)
      ensures !Fills(sd, ps'[n], i, j, k)
    {
      assert ps'[m] == ps[m];
      if n == |ps| {
        assert space[i][j][k];
        FreeWhereCovered(space, sd, p.voxels, p.vd, p.orient, p.x, p.y, p.z, i, j, k);
      } else {
        assert ps'[n] == ps[n];
      }
    }
  }
}
