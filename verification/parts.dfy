/**
  A part as the stackers see it once its orientations are computed and
  voxelised: the bounding box of each orientation (`box_size` in C++,
  `Mesh.box` in C#), one voxel grid shared by all orientations (orientation
  `o` is voxelised with bit `2^o`, here: `o` is in the cell's set), the
  quantity to place and the volume the parts are ordered by.

  Also: which orientations fit at a corner, the lowest one (the orientation
  the stackers commit), and the order in which parts are stacked.
*/
module Parts {
  import opened Grid
  import opened Occupancy
  import opened Scan

  datatype Part = Part(quantity: int, volume: int, boxes: seq<Dims>, voxels: Grid3<Orients>, vd: Dims)

  /** The number of instances `stack_impl` places: the `int` quantity
      converted to `std::size_t`, so the -1 that an out-of-range quantity
      in a file name leaves becomes 2^64 - 1. */
  function ToPlace(part: Part): (r: nat)
    ensures 0 <= part.quantity < SizeTRange ==> r == part.quantity
    ensures part.quantity == -1 ==> r == SizeTRange - 1
  {
    AsSizeT(part.quantity)
  }

  /** The voxel grid has its stated extents, and the part has at least one
      orientation (every rotation set is non-empty). */
  predicate ValidPart(part: Part) {
    Shaped(part.voxels, part.vd) && |part.boxes| >= 1
  }

  /** A box of size `b` with its corner at `p` lies strictly inside the
      limits `lim`: `x + box.x < max.x` and so on. */
  predicate FitsAt(b: Dims, p: Pos, lim: Dims) {
    p.x + b.x < lim.x && p.y + b.y < lim.y && p.z + b.z < lim.z
  }

  /** The fit-mask loop from orientation `i` on: orientation `o` is set when
      its box fits at `p` within `lim`. */
  function FitFrom(boxes: seq<Dims>, i: nat, p: Pos, lim: Dims): (r: Orients)
    requires i <= |boxes|
    ensures forall o :: o in r <==> i <= o < |boxes| && FitsAt(boxes[o], p, lim)
    decreases |boxes| - i
  {
    if i == |boxes| then {}
    else if FitsAt(boxes[i], p, lim) then {i} + FitFrom(boxes, i + 1, p, lim)
    else FitFrom(boxes, i + 1, p, lim)
  }

  /** The orientations whose boxes fit at `p` within `lim`. */
  function FitOrients(boxes: seq<Dims>, p: Pos, lim: Dims): Orients {
    FitFrom(boxes, 0, p, lim)
  }

  /** The scan `bit_index = 1, 2, 4, ...` for the first set bit, from
      orientation `i` on. */
  function LowestFrom(possible: Orients, i: nat, n: nat): (r: nat)
    requires possible != {}
    requires forall o :: o in possible ==> i <= o < n
    ensures r in possible && forall o :: o in possible ==> r <= o
    decreases n - i
  {
    if i in possible then i else LowestFrom(possible, i + 1, n)
  }

  /** The orientation committed at a corner: the lowest one left. */
  function Lowest(possible: Orients, n: nat): nat
    requires possible != {}
    requires forall o :: o in possible ==> o < n
  {
    LowestFrom(possible, 0, n)
  }

  /** Orientation `o` of `part` can be placed with its corner at `p`: its box
      fits within `lim` and it fills no occupied cell. */
  predicate Feasible(space: Grid3<bool>, sd: Dims, part: Part, p: Pos, lim: Dims, o: nat)
    requires Shaped(space, sd) && ValidPart(part)
  {
    o < |part.boxes| && FitsAt(part.boxes[o], p, lim) &&
    !Collides(space, sd, part.voxels, part.vd, o, p.x, p.y, p.z)
  }

  /** Some orientation of `part` can be placed somewhere within `lim`. */
  ghost predicate AnyFeasible(space: Grid3<bool>, sd: Dims, part: Part, lim: Dims)
    requires Shaped(space, sd) && ValidPart(part)
  {
    exists p: Pos, o: nat :: Feasible(space, sd, part, p, lim, o)
  }

  /** `can_place` applied to the fit mask yields exactly the feasible
      orientations. */
  lemma PlaceableFeasible(space: Grid3<bool>, sd: Dims, part: Part, p: Pos, lim: Dims)
    requires Shaped(space, sd) && ValidPart(part)
    ensures forall o ::
      (o in Placeable(space, sd, FitOrients(part.boxes, p, lim), part.voxels, part.vd, p.x, p.y, p.z)
       <==> Feasible(space, sd, part, p, lim, o))
  {
  }

  /** Feasibility depends on the limits only through the fit test, so larger
      limits keep a feasible orientation feasible. */
  lemma FeasibleWider(space: Grid3<bool>, sd: Dims, part: Part, p: Pos, lim: Dims, lim': Dims, o: nat)
    requires Shaped(space, sd) && ValidPart(part)
    requires lim.x <= lim'.x && lim.y <= lim'.y && lim.z <= lim'.z
    requires Feasible(space, sd, part, p, lim, o)
    ensures Feasible(space, sd, part, p, lim', o)
  {
  }

  /** `pl` is an instance of part number `k` committed within the limits
      `lim`. */
  predicate InstanceOf(pl: Placed, part: Part, k: nat, lim: Dims) {
    pl.part == k && pl.voxels == part.voxels && pl.vd == part.vd &&
    pl.orient < |part.boxes| && pl.box == part.boxes[pl.orient] &&
    FitsAt(pl.box, Pos(pl.x, pl.y, pl.z), lim)
  }

  predicate AllWellShaped(ps: seq<Placed>) {
    forall n :: 0 <= n < |ps| ==> WellShaped(ps[n])
  }

  /** Volumes are non-increasing along `parts`. */
  predicate VolumeDescending(parts: seq<Part>) {
    forall a, b :: 0 <= a < b < |parts| ==> parts[a].volume >= parts[b].volume
  }

  /** Volumes are non-decreasing along `parts`. */
  predicate VolumeAscending(parts: seq<Part>) {
    forall a, b :: 0 <= a < b < |parts| ==> parts[a].volume <= parts[b].volume
  }

  /** Inserts `part` into a sequence sorted by descending volume, after the
      parts of equal volume. */
  function InsertDescending(part: Part, sorted: seq<Part>): (r: seq<Part>)
    requires VolumeDescending(sorted)
    ensures VolumeDescending(r)
    ensures multiset(r) == multiset(sorted) + multiset{part}
  {
    if sorted == [] then [part]
    else if sorted[0].volume >= part.volume then
      var rest := InsertDescending(part, sorted[1..]);
      assert sorted == [sorted[0]] + sorted[1..];
      AtMostAfterInsert(rest, sorted[1..], part, sorted[0].volume);
      [sorted[0]] + rest
    else [part] + sorted
  }

  /** `std::ranges::sort(parts, std::greater{}, &part_properties::volume)`:
      the parts ordered by descending volume. */
  function SortByVolumeDescending(parts: seq<Part>): (r: seq<Part>)
    ensures VolumeDescending(r)
    ensures multiset(r) == multiset(parts)
  {
    if parts == [] then []
    else
      assert parts == parts[..|parts| - 1] + [parts[|parts| - 1]];
      InsertDescending(parts[|parts| - 1], SortByVolumeDescending(parts[..|parts| - 1]))
  }

  /** Inserts `part` into a sequence sorted by ascending volume, after the
      parts of equal volume (so the insertion sort below is stable). */
  function InsertAscending(sorted: seq<Part>, part: Part): (r: seq<Part>)
    requires VolumeAscending(sorted)
    ensures VolumeAscending(r)
    ensures multiset(r) == multiset(sorted) + multiset{part}
  {
    if sorted == [] then [part]
    else if sorted[|sorted| - 1].volume <= part.volume then sorted + [part]
    else
      var init := sorted[..|sorted| - 1];
      var rest := InsertAscending(init, part);
      assert sorted == init + [sorted[|sorted| - 1]];
      AtMostAfterInsert(rest, init, part, sorted[|sorted| - 1].volume);
      rest + [sorted[|sorted| - 1]]
  }

  /** A bound on the volumes of `src` and of `part` bounds every part of a
      sequence holding exactly those parts. */
  lemma AtMostAfterInsert(rest: seq<Part>, src: seq<Part>, part: Part, v: int)
    requires multiset(rest) == multiset(src) + multiset{part}
    requires part.volume <= v && forall m :: 0 <= m < |src| ==> src[m].volume <= v
    ensures forall n :: 0 <= n < |rest| ==> rest[n].volume <= v
  {
    forall n | 0 <= n < |rest|
      ensures rest[n].volume <= v
    {
      assert rest[n] in multiset(rest);
      if rest[n] != part {
        assert rest[n] in multiset(src);
        var m :| 0 <= m < |src| && src[m] == rest[n];
      }
    }
  }

  /** `OrderBy(p => p.Volume)`: the parts ordered by ascending volume. */
  function OrderByVolume(parts: seq<Part>): (r: seq<Part>)
    ensures VolumeAscending(r)
    ensures multiset(r) == multiset(parts)
  {
    if parts == [] then []
    else
      assert parts == parts[..|parts| - 1] + [parts[|parts| - 1]];
      InsertAscending(OrderByVolume(parts[..|parts| - 1]), parts[|parts| - 1])
  }

  /** Processing an ascending order from its last index, as the C# stacker
      does, visits the parts largest first. */
  lemma LastIndexFirstIsDescending(parts: seq<Part>)
    requires VolumeAscending(parts)
    ensures VolumeDescending(Reverse(parts))
  {
  }

  function Reverse<T>(s: seq<T>): (r: seq<T>)
    ensures |r| == |s| && forall n :: 0 <= n < |s| ==> r[n] == s[|s| - 1 - n]
  {
    if s == [] then [] else Reverse(s[1..]) + [s[0]]
  }
}
