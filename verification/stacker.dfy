/**
  The C++ stacking loop (`try_place` and `stack_impl`): parts are taken
  largest first; instances of the current part are committed at the corners
  of the current limits in scan order, and when a whole scan commits nothing
  the limits are grown around the best placement the growth search reaches
  in the whole space.

  The model keeps, besides the occupancy grid, the ghost list of committed
  instances, and proves that the grid is exactly their union and that no two
  of them overlap.
*/
module Stacker {
  import opened Grid
  import opened Occupancy
  import opened Scan
  import opened Parts
  import opened Growth
  import opened Wrappers

  /** The corner of a committed instance. */
  function Corner(pl: Placed): Pos {
    Pos(pl.x, pl.y, pl.z)
  }

  /** The corners of `ps`, in order. */
  function Corners(ps: seq<Placed>): (cs: seq<Pos>)
    ensures |cs| == |ps| && forall n :: 0 <= n < |ps| ==> cs[n] == Corner(ps[n])
  {
    seq(|ps|, n requires 0 <= n < |ps| => Corner(ps[n]))
  }

  /** Every instance in `ps` is an instance of `part`, number `k`, within
      `lim`. */
  predicate AllInstances(ps: seq<Placed>, part: Part, k: nat, lim: Dims) {
    forall n :: 0 <= n < |ps| ==> InstanceOf(ps[n], part, k, lim)
  }

  /** Instances within some limits are within any larger limits. */
  lemma InstancesWider(ps: seq<Placed>, part: Part, k: nat, lim: Dims, lim': Dims)
    requires AllInstances(ps, part, k, lim)
    requires lim.x <= lim'.x && lim.y <= lim'.y && lim.z <= lim'.z
    ensures AllInstances(ps, part, k, lim')
  {
  }

  /** The grid `space` holds exactly the instances `ps`, and they do not
      overlap. */
  ghost predicate Holds(space: Grid3<bool>, sd: Dims, ps: seq<Placed>) {
    Shaped(space, sd) && AllWellShaped(ps) && Exact(space, sd, ps) && Separate(sd, ps)
  }

  /** `try_place`: one scan of the corners within `lim`, committing at each
      corner the lowest orientation that fits and collides with nothing, and
      returning as soon as `toPlace` instances are committed. */
  method TryPlace(space: Grid3<bool>, sd: Dims, part: Part, k: nat, toPlace: nat, lim: Dims, ghost placed0: seq<Placed>)
    returns (placed: nat, space': Grid3<bool>, added: seq<Placed>)
    requires ValidPart(part) && toPlace >= 1 && Holds(space, sd, placed0)
    ensures Holds(space', sd, placed0 + added)
    ensures placed <= toPlace && |added| == placed
    ensures AllInstances(added, part, k, lim)
    ensures StrictlyOrdered(Corners(added))
    ensures placed == 0 <==> !AnyFeasible(space, sd, part, lim)
    ensures placed == 0 ==> space' == space
  {
    var order := ScanOrder(lim.x, lim.y, lim.z);
    ScanOrderSpec(lim.x, lim.y, lim.z);
    placed, space', added := 0, space, [];
    assert placed0 + added == placed0;
    var n := 0;
    while n < |order|
      invariant 0 <= n <= |order| && placed < toPlace
      invariant ScanInv(space, sd, part, k, lim, placed0, order, n, placed, space', added)
    {
      placed, space', added := ScanStep(space, sd, part, k, lim, placed0, order, n, placed, space', added);
      if placed == toPlace {
        return;
      }
      n := n + 1;
    }
    if placed == 0 {
      ScanBlocked(space, sd, part, lim);
    }
  }

  /** The state of the scan before position `n`: the grid holds the earlier
      instances and the ones committed so far; these are instances of the
      part within `lim` committed in scan order; and nothing is committed
      exactly when every corner so far was blocked. */
  ghost predicate ScanInv(space: Grid3<bool>, sd: Dims, part: Part, k: nat, lim: Dims, placed0: seq<Placed>,
                          order: seq<Pos>, n: nat, placed: nat, cur: Grid3<bool>, added: seq<Placed>)
    requires Shaped(space, sd) && ValidPart(part)
  {
    n <= |order| && Holds(cur, sd, placed0 + added) && |added| == placed &&
    AllInstances(added, part, k, lim) && StrictlyOrdered(Corners(added)) &&
    (n < |order| ==> forall a :: 0 <= a < |added| ==> Earlier(Corner(added[a]), order[n])) &&
    (placed == 0 ==> cur == space && forall m :: 0 <= m < n ==> Blocked(space, sd, part, order[m], lim)) &&
    (placed > 0 ==> AnyFeasible(space, sd, part, lim))
  }

  /** The body of the scan at position `n`. */
  method ScanStep(space: Grid3<bool>, sd: Dims, part: Part, k: nat, lim: Dims, ghost placed0: seq<Placed>,
                  order: seq<Pos>, n: nat, placed: nat, cur: Grid3<bool>, added: seq<Placed>)
    returns (placed': nat, cur': Grid3<bool>, added': seq<Placed>)
    requires Shaped(space, sd) && ValidPart(part) && StrictlyOrdered(order) && n < |order|
    requires ScanInv(space, sd, part, k, lim, placed0, order, n, placed, cur, added)
    ensures placed <= placed' <= placed + 1
    ensures ScanInv(space, sd, part, k, lim, placed0, order, n + 1, placed', cur', added')
  {
    var p := order[n];
    var committed, next, pl := Visit(cur, sd, part, k, p, lim, placed0 + added);
    if committed {
      assert placed0 + added + [pl] == placed0 + (added + [pl]);
      CommitOrdered(order, n, added, pl);
      placed', cur', added' := placed + 1, next, added + [pl];
    } else {
      if n + 1 < |order| {
        assert Earlier(order[n], order[n + 1]);
      }
      placed', cur', added' := placed, cur, added;
    }
  }

  /** No orientation of `part` can be placed at `p` within `lim`. */
  ghost predicate Blocked(space: Grid3<bool>, sd: Dims, part: Part, p: Pos, lim: Dims)
    requires Shaped(space, sd) && ValidPart(part)
  {
    forall o: nat :: !Feasible(space, sd, part, p, lim, o)
  }

  /** A scan that finds every corner blocked leaves no feasible placement
      within `lim`: every corner at which some orientation fits is one the
      scan visits. */
  lemma ScanBlocked(space: Grid3<bool>, sd: Dims, part: Part, lim: Dims)
    requires Shaped(space, sd) && ValidPart(part)
    requires var order := ScanOrder(lim.x, lim.y, lim.z);
      forall m :: 0 <= m < |order| ==> Blocked(space, sd, part, order[m], lim)
    ensures !AnyFeasible(space, sd, part, lim)
  {
    var order := ScanOrder(lim.x, lim.y, lim.z);
    ScanOrderSpec(lim.x, lim.y, lim.z);
    forall p: Pos, o: nat
      ensures !Feasible(space, sd, part, p, lim, o)
    {
      if InBox(p, lim.x, lim.y, lim.z) {
        var m :| 0 <= m < |order| && order[m] == p;
        assert Blocked(space, sd, part, order[m], lim);
      }
    }
  }

  /** The body of the scan at corner `p`: the fit mask, `can_place`, and,
      if some orientation is left, committing the lowest one. */
  method Visit(space: Grid3<bool>, sd: Dims, part: Part, k: nat, p: Pos, lim: Dims, ghost ps: seq<Placed>)
    returns (committed: bool, next: Grid3<bool>, pl: Placed)
    requires ValidPart(part) && Holds(space, sd, ps)
    ensures committed ==>
      Holds(next, sd, ps + [pl]) && InstanceOf(pl, part, k, lim) && Corner(pl) == p &&
      Feasible(space, sd, part, p, lim, pl.orient)
    ensures !committed ==> next == space && Blocked(space, sd, part, p, lim)
  {
    var possible := FitOrients(part.boxes, p, lim);
    possible := CanPlace(space, sd, possible, part.voxels, part.vd, p.x, p.y, p.z);
    PlaceableFeasible(space, sd, part, p, lim);
    committed := possible != {};
    next, pl := space, Placed(k, part.boxes[0], part.voxels, part.vd, 0, p.x, p.y, p.z);
    if committed {
      var o := Lowest(possible, |part.boxes|);
      assert Feasible(space, sd, part, p, lim, o);
      pl := Placed(k, part.boxes[o], part.voxels, part.vd, o, p.x, p.y, p.z);
      next := Place(space, sd, o, part.voxels, part.vd, p.x, p.y, p.z);
      PlaceKeepsInvariants(space, sd, ps, pl, next);
    }
  }

  /** Committing an instance at scan position `n`, after instances whose
      corners all come earlier, keeps the corners strictly ordered, and all
      of them come before the next position. */
  lemma CommitOrdered(order: seq<Pos>, n: nat, added: seq<Placed>, pl: Placed)
    requires StrictlyOrdered(order) && n < |order| && Corner(pl) == order[n]
    requires StrictlyOrdered(Corners(added))
    requires forall a :: 0 <= a < |added| ==> Earlier(Corner(added[a]), order[n])
    ensures StrictlyOrdered(Corners(added + [pl]))
    ensures n + 1 < |order| ==> forall a :: 0 <= a < |added + [pl]| ==> Earlier(Corner((added + [pl])[a]), order[n + 1])
  {
    if n + 1 < |order| {
      assert Earlier(order[n], order[n + 1]);
    }
  }

  /** The `while (to_place > 0)` loop for one part: scans, and grows the
      limits (with the corrected search bounds) after a scan that commits
      nothing. Fails when the search finds no placement in the whole
      space. */
  method StackPart(space: Grid3<bool>, sd: Dims, part: Part, k: nat, lim: Dims, ghost placed0: seq<Placed>)
    returns (ok: bool, space': Grid3<bool>, lim': Dims, added: seq<Placed>)
    requires ValidPart(part) && Holds(space, sd, placed0)
    ensures Holds(space', sd, placed0 + added)
    ensures lim.x <= lim'.x && lim.y <= lim'.y && lim.z <= lim'.z
    ensures AllInstances(added, part, k, lim')
    ensures ok ==> |added| == ToPlace(part)
    ensures !ok ==> |added| < ToPlace(part)
    ensures !ok && VolumeBound(Env(space', sd, part, lim')) ==> !AnyFeasible(space', sd, part, sd)
  {
    space', lim', added := space, lim, [];
    assert placed0 + added == placed0;
    var toPlace := ToPlace(part);
    ghost var ready := false;
    while toPlace > 0
      invariant Holds(space', sd, placed0 + added)
      invariant lim.x <= lim'.x && lim.y <= lim'.y && lim.z <= lim'.z
      invariant AllInstances(added, part, k, lim')
      invariant |added| + toPlace == ToPlace(part)
      invariant ready ==> AnyFeasible(space', sd, part, lim')
      decreases toPlace, if ready then 0 else 1
    {
      var placed, next, more := TryPlace(space', sd, part, k, toPlace, lim', placed0 + added);
      assert placed0 + added + more == placed0 + (added + more);
      space', added, toPlace := next, added + more, toPlace - placed;
      ready := false;
      if placed == 0 {
        var grown := Enlarge(Env(space', sd, part, lim'));
        if grown.None? {
          return false, space', lim', added;
        }
        InstancesWider(added, part, k, lim', grown.value);
        lim' := grown.value;
        ready := true;
      }
    }
    ok := true;
  }

  /** The number of instances of part number `k` in `ps`. */
  function Count(ps: seq<Placed>, k: nat): (c: nat)
    ensures c <= |ps|
  {
    if ps == [] then 0 else (if ps[0].part == k then 1 else 0) + Count(ps[1..], k)
  }

  lemma {:induction false} CountAppend(a: seq<Placed>, b: seq<Placed>, k: nat)
    ensures Count(a + b, k) == Count(a, k) + Count(b, k)
    decreases |a|
  {
    if a == [] {
      assert a + b == b;
    } else {
      assert (a + b)[1..] == a[1..] + b;
      CountAppend(a[1..], b, k);
    }
  }

  /** Counting instances that all belong to part `k`. */
  lemma {:induction false} CountUniform(ps: seq<Placed>, k: nat, j: nat)
    requires forall n :: 0 <= n < |ps| ==> ps[n].part == k
    ensures Count(ps, j) == if j == k then |ps| else 0
    decreases |ps|
  {
    if ps != [] {
      CountUniform(ps[1..], k, j);
    }
  }

  /** A finished stacking: the parts in the order they were stacked, the
      committed instances (`part` indexes `order`), the occupancy grid and
      the final limits. */
  datatype Stacking = Stacking(order: seq<Part>, placements: seq<Placed>, space: Grid3<bool>, lim: Dims)

  /** Every committed instance is an instance of the part it names, within
      the final limits. */
  predicate InstancesOfOrder(st: Stacking) {
    forall n :: 0 <= n < |st.placements| ==>
      st.placements[n].part < |st.order| &&
      InstanceOf(st.placements[n], st.order[st.placements[n].part], st.placements[n].part, st.lim)
  }

  /** Appending the instances of part `k` completes its count and leaves
      the other counts alone. */
  lemma CountsAfter(order: seq<Part>, placements: seq<Placed>, added: seq<Placed>, k: nat)
    requires k < |order| && |added| == ToPlace(order[k])
    requires forall n :: 0 <= n < |added| ==> added[n].part == k
    requires forall j :: 0 <= j < k ==> Count(placements, j) == ToPlace(order[j])
    requires forall j :: k <= j ==> Count(placements, j) == 0
    ensures forall j :: 0 <= j < k + 1 ==> Count(placements + added, j) == ToPlace(order[j])
    ensures forall j :: k + 1 <= j ==> Count(placements + added, j) == 0
  {
    forall j
      ensures Count(placements + added, j) == Count(placements, j) + (if j == k then |added| else 0)
    {
      CountAppend(placements, added, j);
      CountUniform(added, k, j);
    }
  }

  /** Appending instances of part `k` within the grown limits keeps every
      instance within the limits. */
  lemma InstancesAfter(order: seq<Part>, placements: seq<Placed>, added: seq<Placed>, k: nat, cur: Dims, grown: Dims)
    requires k < |order| && AllInstances(added, order[k], k, grown)
    requires cur.x <= grown.x && cur.y <= grown.y && cur.z <= grown.z
    requires forall n :: 0 <= n < |placements| ==>
      placements[n].part < k && InstanceOf(placements[n], order[placements[n].part], placements[n].part, cur)
    ensures forall n :: 0 <= n < |placements + added| ==>
      (placements + added)[n].part < k + 1 &&
      InstanceOf((placements + added)[n], order[(placements + added)[n].part], (placements + added)[n].part, grown)
  {
  }

  /** `stack_impl` after the parts are voxelised: stacks every part, largest
      volume first, into an empty space of extents `sd` starting from the
      limits `lim`; `None` is the empty result returned when a part cannot be
      placed anywhere. */
  method Stack(parts: seq<Part>, sd: Dims, lim: Dims)
    returns (res: Option<Stacking>, ghost failed: Part, ghost failSpace: Grid3<bool>, ghost failLim: Dims)
    requires forall n :: 0 <= n < |parts| ==> ValidPart(parts[n])
    ensures res.None? ==>
      failed in parts && Shaped(failSpace, sd) &&
      lim.x <= failLim.x && lim.y <= failLim.y && lim.z <= failLim.z &&
      (VolumeBound(Env(failSpace, sd, failed, failLim)) ==> !AnyFeasible(failSpace, sd, failed, sd))
    ensures res.Some? ==> var st := res.value;
      multiset(st.order) == multiset(parts) && VolumeDescending(st.order) &&
      Holds(st.space, sd, st.placements) && InstancesOfOrder(st) &&
      lim.x <= st.lim.x && lim.y <= st.lim.y && lim.z <= st.lim.z &&
      forall k :: 0 <= k < |st.order| ==> Count(st.placements, k) == ToPlace(st.order[k])
  {
    var order := SortByVolumeDescending(parts);
    forall n | 0 <= n < |order|
      ensures ValidPart(order[n])
    {
      assert order[n] in multiset(parts);
    }
    var space := Filled(sd, false);
    EmptyExact(sd);
    var cur := lim;
    var placements: seq<Placed> := [];
    var k := 0;
    while k < |order|
      invariant 0 <= k <= |order|
      invariant Holds(space, sd, placements)
      invariant lim.x <= cur.x && lim.y <= cur.y && lim.z <= cur.z
      invariant forall n :: 0 <= n < |placements| ==>
        placements[n].part < k && InstanceOf(placements[n], order[placements[n].part], placements[n].part, cur)
      invariant forall j :: 0 <= j < k ==> Count(placements, j) == ToPlace(order[j])
      invariant forall j :: k <= j ==> Count(placements, j) == 0
    {
      var ok, next, grown, added := StackPart(space, sd, order[k], k, cur, placements);
      if !ok {
        assert order[k] in multiset(parts);
        return None, order[k], next, grown;
      }
      CountsAfter(order, placements, added, k);
      InstancesAfter(order, placements, added, k, cur, grown);
      placements, space, cur := placements + added, next, grown;
      k := k + 1;
    }
    res := Some(Stacking(order, placements, space, cur));
    failed, failSpace, failLim := Part(0, 0, [], [], Dims(0, 0, 0)), space, cur;
  }
}
