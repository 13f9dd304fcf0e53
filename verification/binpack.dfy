/**
  The recursive guillotine bin packer (`calc/binpack.cpp`).

  `pack_items_impl` tries every item that fits the box, in every one of the
  six cut orders, packs the three remainders recursively and keeps the
  best-scoring combination. Results are relative to the box's own origin and
  are memoised in the spatial cache. The cache is threaded through the
  recursion explicitly: every call returns the result together with the
  cache it leaves behind.
*/
module BinPack {
  import opened Vector3
  import opened Wrappers
  import opened BinPackTypes
  import opened BinPackCache

  const IntMax: int := 0x7fff_ffff
  const CellSize: int := 1000

  predicate ValidItems(items: seq<Item>) {
    forall i :: 0 <= i < |items| ==> ValidItem(items[i])
  }

  /** Every placement is one of the given items. */
  predicate AllFrom(ps: seq<ItemPlacement>, items: seq<Item>) {
    forall i :: 0 <= i < |ps| ==> ps[i].item in items
  }

  /** Every placed item lies within the container. */
  predicate AllInside(ps: seq<ItemPlacement>, container: PackingBox) {
    forall i :: 0 <= i < |ps| ==> Inside(Region(ps[i]), container)
  }

  /** No two placed items overlap. */
  predicate NonOverlapping(ps: seq<ItemPlacement>) {
    forall i, j :: 0 <= i < j < |ps| ==> Disjoint(Region(ps[i]), Region(ps[j]))
  }

  /** Every item of `a` is apart from every item of `b`. */
  predicate Apart(a: seq<ItemPlacement>, b: seq<ItemPlacement>) {
    forall i, j :: 0 <= i < |a| && 0 <= j < |b| ==> Disjoint(Region(a[i]), Region(b[j]))
  }

  /** A packing of `items` into `container`: the score is the 32-bit sum of
      the placed items' scores and the placed items are inside the container
      and pairwise disjoint. */
  predicate ValidPacking(r: PackingResult, container: PackingBox, items: seq<Item>) {
    && ScoreConsistent(r)
    && AllFrom(r.placements, items)
    && AllInside(r.placements, container)
    && NonOverlapping(r.placements)
  }

  /** What a packing keeps under the given cache lookup. With the
      component-wise lookup it is a valid packing of the container. With the
      lexicographic lookup of `try_get` as written, a served entry may not fit
      the queried box, so all that is kept is that the score is the wrapped
      sum of the placed items' scores and every placed item is a given one. */
  predicate Sound(mode: Bounds, r: PackingResult, container: PackingBox, items: seq<Item>) {
    && ScoreConsistent(r)
    && AllFrom(r.placements, items)
    && (mode == Componentwise ==> AllInside(r.placements, container) && NonOverlapping(r.placements))
  }

  /** The box of the given size at the origin. */
  function AtOrigin(size: Vec3): PackingBox {
    PackingBox(Zero, size)
  }

  /** Every cache entry is sound inside its recorded items' bounding box. */
  predicate CacheOk(cache: Cache<PackingResult>, items: seq<Item>, mode: Bounds) {
    && cache.cellSize > 0
    && forall i :: 0 <= i < |cache.cells| ==>
         Sound(mode, cache.cells[i].1.value, AtOrigin(cache.cells[i].1.itemsAabb), items)
  }

  lemma EmptyValid(container: PackingBox, items: seq<Item>)
    ensures ValidPacking(EmptyResult, container, items)
  {
  }

  /** A valid packing stays valid in any larger container. */
  lemma ValidPackingGrow(r: PackingResult, c: PackingBox, c': PackingBox, items: seq<Item>)
    requires ValidPacking(r, c, items) && Inside(c, c')
    ensures ValidPacking(r, c', items)
  {
    forall i | 0 <= i < |r.placements|
      ensures Inside(Region(r.placements[i]), c')
    {
      InsideTransitive(Region(r.placements[i]), c, c');
    }
  }

  lemma {:induction false} ScoreSumSameItems(a: seq<ItemPlacement>, b: seq<ItemPlacement>)
    requires |a| == |b| && forall i :: 0 <= i < |a| ==> a[i].item == b[i].item
    ensures ScoreSum(a) == ScoreSum(b)
    decreases |a|
  {
    if |a| > 0 {
      ScoreSumSameItems(a[1..], b[1..]);
    }
  }

  function Shift(b: PackingBox, offset: Vec3): PackingBox {
    PackingBox(Vector3.Add(b.origin, offset), b.size)
  }

  lemma ShiftGet(b: PackingBox, offset: Vec3, a: Axis)
    ensures Shift(b, offset).origin.Get(a) == b.origin.Get(a) + offset.Get(a)
    ensures End(Shift(b, offset), a) == End(b, a) + offset.Get(a)
  {
  }

  /** Shifting both boxes by the same offset keeps containment and disjointness. */
  lemma ShiftKeeps(p: PackingBox, q: PackingBox, offset: Vec3)
    ensures Inside(p, q) ==> Inside(Shift(p, offset), Shift(q, offset))
    ensures Disjoint(p, q) ==> Disjoint(Shift(p, offset), Shift(q, offset))
  {
    forall a: Axis
      ensures Shift(p, offset).origin.Get(a) == p.origin.Get(a) + offset.Get(a)
      ensures End(Shift(p, offset), a) == End(p, a) + offset.Get(a)
      ensures Shift(q, offset).origin.Get(a) == q.origin.Get(a) + offset.Get(a)
      ensures End(Shift(q, offset), a) == End(q, a) + offset.Get(a)
    {
      ShiftGet(p, offset, a);
      ShiftGet(q, offset, a);
    }
  }

  /** Translation moves a valid packing together with its container. */
  lemma TranslateValid(r: PackingResult, c: PackingBox, offset: Vec3, items: seq<Item>)
    requires ValidPacking(r, c, items)
    ensures ValidPacking(Translate(r, offset), Shift(c, offset), items)
  {
    var t := Translate(r, offset);
    ScoreSumSameItems(r.placements, t.placements);
    forall i | 0 <= i < |t.placements|
      ensures Inside(Region(t.placements[i]), Shift(c, offset))
    {
      assert Region(t.placements[i]) == Shift(Region(r.placements[i]), offset);
      ShiftKeeps(Region(r.placements[i]), c, offset);
    }
    forall i, j | 0 <= i < j < |t.placements|
      ensures Disjoint(Region(t.placements[i]), Region(t.placements[j]))
    {
      assert Region(t.placements[i]) == Shift(Region(r.placements[i]), offset);
      assert Region(t.placements[j]) == Shift(Region(r.placements[j]), offset);
      ShiftKeeps(Region(r.placements[i]), Region(r.placements[j]), offset);
    }
  }

  /** Items inside two disjoint containers are apart. */
  lemma ApartByContainers(a: seq<ItemPlacement>, ca: PackingBox, b: seq<ItemPlacement>, cb: PackingBox)
    requires AllInside(a, ca) && AllInside(b, cb) && Disjoint(ca, cb)
    ensures Apart(a, b)
  {
    forall i, j | 0 <= i < |a| && 0 <= j < |b|
      ensures Disjoint(Region(a[i]), Region(b[j]))
    {
      DisjointInside(Region(a[i]), ca, Region(b[j]), cb);
    }
  }

  lemma NonOverlappingAppend(a: seq<ItemPlacement>, b: seq<ItemPlacement>)
    requires NonOverlapping(a) && NonOverlapping(b) && Apart(a, b)
    ensures NonOverlapping(a + b)
  {
    var ab := a + b;
    forall i, j | 0 <= i < j < |ab|
      ensures Disjoint(Region(ab[i]), Region(ab[j]))
    {
      if j < |a| {
        assert ab[i] == a[i] && ab[j] == a[j];
      } else if i >= |a| {
        assert ab[i] == b[i - |a|] && ab[j] == b[j - |a|];
      } else {
        assert ab[i] == a[i] && ab[j] == b[j - |a|];
      }
    }
  }

  lemma ApartAppend(a: seq<ItemPlacement>, b: seq<ItemPlacement>, c: seq<ItemPlacement>)
    requires Apart(a, c) && Apart(b, c)
    ensures Apart(a + b, c)
  {
    var ab := a + b;
    forall i, j | 0 <= i < |ab| && 0 <= j < |c|
      ensures Disjoint(Region(ab[i]), Region(c[j]))
    {
      if i < |a| {
        assert ab[i] == a[i];
      } else {
        assert ab[i] == b[i - |a|];
      }
    }
  }

  /** `combine` of three valid sub-packings in pairwise disjoint remainders of
      `box`, with the item at the corner of `box` that none of them touches,
      is a valid packing of `box`. */
  lemma CombineValid(results: (PackingResult, PackingResult, PackingResult),
                     subs: (PackingBox, PackingBox, PackingBox),
                     item: Item, box: PackingBox, items: seq<Item>)
    requires ValidPacking(results.0, subs.0, items)
    requires ValidPacking(results.1, subs.1, items)
    requires ValidPacking(results.2, subs.2, items)
    requires item in items && Fits(box.size, item.size) && Fits(item.size, Zero)
    requires Inside(subs.0, box) && Inside(subs.1, box) && Inside(subs.2, box)
    requires Disjoint(subs.0, subs.1) && Disjoint(subs.0, subs.2) && Disjoint(subs.1, subs.2)
    requires var itemBox := PackingBox(box.origin, item.size);
      Disjoint(itemBox, subs.0) && Disjoint(itemBox, subs.1) && Disjoint(itemBox, subs.2)
    ensures ValidPacking(Combine(results, ItemPlacement(item, box.origin)), box, items)
  {
    var placement := ItemPlacement(item, box.origin);
    var r := Combine(results, placement);
    var a, b, c := results.0.placements, results.1.placements, results.2.placements;
    var head := [placement];
    CombineScoreConsistent(results, placement);
    assert r.placements == head + (a + b + c);
    ApartByContainers(a, subs.0, b, subs.1);
    ApartByContainers(a, subs.0, c, subs.2);
    ApartByContainers(b, subs.1, c, subs.2);
    NonOverlappingAppend(a, b);
    ApartAppend(a, b, c);
    NonOverlappingAppend(a + b, c);
    assert AllInside(head, Region(placement));
    ApartByContainers(head, Region(placement), a, subs.0);
    ApartByContainers(head, Region(placement), b, subs.1);
    ApartByContainers(head, Region(placement), c, subs.2);
    assert Apart(head, a + b + c) by {
      var abc := a + b + c;
      forall j | 0 <= j < |abc|
        ensures Disjoint(Region(head[0]), Region(abc[j]))
      {
        if j < |a| {
          assert abc[j] == a[j];
        } else if j < |a| + |b| {
          assert abc[j] == b[j - |a|];
        } else {
          assert abc[j] == c[j - |a| - |b|];
        }
      }
    }
    NonOverlappingAppend(head, a + b + c);
    ValidPackingGrow(results.0, subs.0, box, items);
    ValidPackingGrow(results.1, subs.1, box, items);
    ValidPackingGrow(results.2, subs.2, box, items);
    assert Inside(Region(placement), box);
    forall i | 0 <= i < |r.placements|
      ensures r.placements[i].item in items && Inside(Region(r.placements[i]), box)
    {
      if i == 0 {
      } else if i <= |a| {
        assert r.placements[i] == a[i - 1];
      } else if i <= |a| + |b| {
        assert r.placements[i] == b[i - 1 - |a|];
      } else {
        assert r.placements[i] == c[i - 1 - |a| - |b|];
      }
    }
  }

  /** Upper corner (exclusive) of a placed item. */
  function PlacementEnd(p: ItemPlacement): Vec3 {
    Vector3.Add(p.position, p.item.size)
  }

  /** The running `component_max` of the placed items' upper corners, from the origin. */
  function Aabb(ps: seq<ItemPlacement>): (r: Vec3)
    ensures Fits(r, Zero)
    ensures forall i :: 0 <= i < |ps| ==> Fits(r, PlacementEnd(ps[i]))
  {
    if |ps| == 0 then Zero
    else ComponentMax(Aabb(ps[..|ps| - 1]), PlacementEnd(ps[|ps| - 1]))
  }

  /** The running maximum is the least non-negative bound of the upper corners. */
  lemma {:induction false} AabbLeast(ps: seq<ItemPlacement>, bound: Vec3)
    requires Fits(bound, Zero)
    requires forall i :: 0 <= i < |ps| ==> Fits(bound, PlacementEnd(ps[i]))
    ensures Fits(bound, Aabb(ps))
    decreases |ps|
  {
    if |ps| > 0 {
      AabbLeast(ps[..|ps| - 1], bound);
    }
  }

  /** A packing at the origin lies within the bounding box of its items. */
  lemma AabbContains(r: PackingResult, size: Vec3, items: seq<Item>)
    requires ValidPacking(r, AtOrigin(size), items)
    ensures ValidPacking(r, AtOrigin(Aabb(r.placements)), items)
  {
    var aabb := Aabb(r.placements);
    forall i | 0 <= i < |r.placements|
      ensures Inside(Region(r.placements[i]), AtOrigin(aabb))
    {
      assert Fits(aabb, PlacementEnd(r.placements[i]));
    }
  }

  /** A cache hit serves a sound packing for the queried box size; with the
      component-wise lookup, a valid packing of that box. */
  lemma CachedValid(cache: Cache<PackingResult>, size: Vec3, items: seq<Item>, mode: Bounds)
    requires CacheOk(cache, items, mode) && Lookup(cache, size, mode).Some?
    ensures Sound(mode, Lookup(cache, size, mode).value, AtOrigin(size), items)
  {
    var v := Lookup(cache, size, mode).value;
    var i :| Hit(cache, i, size, mode) && cache.cells[i].1.value == v;
    if mode == Componentwise {
      ValidPackingGrow(v, AtOrigin(cache.cells[i].1.itemsAabb), AtOrigin(size), items);
    }
  }

  /** Adding a sound packing keeps the cache well-formed. */
  lemma AddOk(cache: Cache<PackingResult>, r: PackingResult, size: Vec3, items: seq<Item>, mode: Bounds)
    requires CacheOk(cache, items, mode) && Sound(mode, r, AtOrigin(size), items)
    ensures CacheOk(BinPackCache.Add(cache, Aabb(r.placements), size, r), items, mode)
  {
    if mode == Componentwise {
      AabbContains(r, size, items);
    }
    var c := BinPackCache.Add(cache, Aabb(r.placements), size, r);
    forall i | 0 <= i < |c.cells|
      ensures Sound(mode, c.cells[i].1.value, AtOrigin(c.cells[i].1.itemsAabb), items)
    {
      if i < |cache.cells| {
        assert c.cells[i] == c.cells[..|cache.cells|][i];
      }
    }
  }

  /** Translation keeps a packing sound, moving its container along. */
  lemma TranslateSound(mode: Bounds, r: PackingResult, c: PackingBox, offset: Vec3, items: seq<Item>)
    requires Sound(mode, r, c, items)
    ensures Sound(mode, Translate(r, offset), Shift(c, offset), items)
  {
    if mode == Componentwise {
      TranslateValid(r, c, offset, items);
    } else {
      ScoreSumSameItems(r.placements, Translate(r, offset).placements);
    }
  }

  /** Sum of the components when none is negative; the recursion measure. */
  function Measure(size: Vec3): nat {
    if Fits(size, Zero) then SizeSum(size) else 0
  }

  /** A result together with the cache the computation leaves behind. */
  datatype Packed = Packed(result: PackingResult, cache: Cache<PackingResult>)

  /** `pack_items_impl`: the best packing of `items` into `box`, relative to
      the box's origin, with the cache looked up under `mode` (`try_get` as
      written is `Lexicographic`). */
  function PackImpl(items: seq<Item>, box: PackingBox, cache: Cache<PackingResult>, minVolume: Vec3,
                    mode: Bounds): (r: Packed)
    requires ValidItems(items) && CacheOk(cache, items, mode)
    ensures CacheOk(r.cache, items, mode)
    ensures Sound(mode, r.result, AtOrigin(box.size), items)
    ensures !Fits(Sort(box.size), minVolume) ==> r == Packed(EmptyResult, cache)
    ensures mode == Componentwise && Fits(box.size, Zero) && Fits(Sort(box.size), minVolume) ==>
      Lookup(r.cache, box.size, mode).Some?
    decreases Measure(box.size), 2, 0
  {
    if !Fits(Sort(box.size), minVolume) then
      EmptyValid(AtOrigin(box.size), items);
      Packed(EmptyResult, cache)
    else
      match Lookup(cache, box.size, mode)
      case Some(cached) =>
        CachedValid(cache, box.size, items, mode);
        Packed(cached, cache)
      case None =>
        EmptyValid(box, items);
        Memoise(box, BestOverItems(items, 0, box, cache, minVolume, EmptyResult, mode), items, mode)
  }

  /** The tail of `pack_items_impl`: move the best packing to the box's
      origin, compute its items' bounding box and store it in the cache. */
  function Memoise(box: PackingBox, p: Packed, items: seq<Item>, mode: Bounds): (r: Packed)
    requires CacheOk(p.cache, items, mode) && Sound(mode, p.result, box, items)
    ensures CacheOk(r.cache, items, mode)
    ensures Sound(mode, r.result, AtOrigin(box.size), items)
    ensures r.result.totalScore == p.result.totalScore
    ensures mode == Componentwise && Fits(box.size, Zero) ==> Lookup(r.cache, box.size, mode).Some?
  {
    var best := Translate(p.result, Neg(box.origin));
    TranslateSound(mode, p.result, box, Neg(box.origin), items);
    assert Shift(box, Neg(box.origin)) == AtOrigin(box.size);
    var aabb := Aabb(best.placements);
    AddOk(p.cache, best, box.size, items, mode);
    if mode == Componentwise && Fits(box.size, Zero) then
      AabbBounded(best, box.size, items);
      AddThenLookup(p.cache, aabb, box.size, best, box.size, mode);
      Packed(best, BinPackCache.Add(p.cache, aabb, box.size, best))
    else
      Packed(best, BinPackCache.Add(p.cache, aabb, box.size, best))
  }

  /** When the box itself has no negative side, the bounding box of a packing
      at its origin fits in it. */
  lemma AabbBounded(r: PackingResult, size: Vec3, items: seq<Item>)
    requires ValidPacking(r, AtOrigin(size), items)
    ensures Fits(size, Zero) ==> Fits(size, Aabb(r.placements))
  {
    if Fits(size, Zero) {
      forall i | 0 <= i < |r.placements|
        ensures Fits(size, PlacementEnd(r.placements[i]))
      {
        assert Inside(Region(r.placements[i]), AtOrigin(size));
        assert End(Region(r.placements[i]), X) <= End(AtOrigin(size), X);
        assert End(Region(r.placements[i]), Y) <= End(AtOrigin(size), Y);
        assert End(Region(r.placements[i]), Z) <= End(AtOrigin(size), Z);
      }
      AabbLeast(r.placements, size);
    }
  }

  /** The loop over `items` of `pack_items_impl`, from index `i` on, starting
      from the best packing found so far. */
  function BestOverItems(items: seq<Item>, i: nat, box: PackingBox, cache: Cache<PackingResult>,
                         minVolume: Vec3, best: PackingResult, mode: Bounds): (r: Packed)
    requires ValidItems(items) && CacheOk(cache, items, mode) && i <= |items|
    requires Sound(mode, best, box, items)
    ensures CacheOk(r.cache, items, mode)
    ensures Sound(mode, r.result, box, items)
    ensures r.result == best || r.result.totalScore > best.totalScore
    ensures (forall j :: i <= j < |items| ==> !Fits(box.size, items[j].size)) ==> r == Packed(best, cache)
    decreases Measure(box.size), 1, |items| - i
  {
    if i == |items| then Packed(best, cache)
    else
      var item := items[i];
      if item.size.x > box.size.x || item.size.y > box.size.y || item.size.z > box.size.z then
        BestOverItems(items, i + 1, box, cache, minVolume, best, mode)
      else
        var p := BestOverSplits(items, item, 0, box, cache, minVolume, best, mode);
        BestOverItems(items, i + 1, box, p.cache, minVolume, p.result, mode)
  }

  /** The loop over the six cut orders for one item that fits the box. A
      split replaces the best packing only when its 32-bit score is strictly
      greater. */
  function BestOverSplits(items: seq<Item>, item: Item, k: nat, box: PackingBox, cache: Cache<PackingResult>,
                          minVolume: Vec3, best: PackingResult, mode: Bounds): (r: Packed)
    requires ValidItems(items) && item in items && Fits(box.size, item.size) && k <= |SplitOrders|
    requires CacheOk(cache, items, mode) && Sound(mode, best, box, items)
    ensures CacheOk(r.cache, items, mode)
    ensures Sound(mode, r.result, box, items)
    ensures r.result == best || r.result.totalScore > best.totalScore
    decreases Measure(box.size), 0, |SplitOrders| - k
  {
    if k == |SplitOrders| then Packed(best, cache)
    else
      assert ValidItem(item);
      var order := SplitOrders[k];
      SplitOrdersValid(k);
      var subs := Split3(box, order, item.size);
      assert Measure(subs.0.size) < Measure(box.size);
      assert Measure(subs.1.size) < Measure(box.size);
      assert Measure(subs.2.size) < Measure(box.size);
      var p0 := PackImpl(items, subs.0, cache, minVolume, mode);
      var p1 := PackImpl(items, subs.1, p0.cache, minVolume, mode);
      var p2 := PackImpl(items, subs.2, p1.cache, minVolume, mode);
      var next := Candidate(items, item, order, box, (p0.result, p1.result, p2.result), best, mode);
      assert next == best || next.totalScore > best.totalScore;
      var r := BestOverSplits(items, item, k + 1, box, p2.cache, minVolume, next, mode);
      assert r.result == next || r.result.totalScore > next.totalScore;
      r
  }

  /** One cut order of the loop body: the item at the box's corner plus the
      three sub-packings (each relative to its remainder's origin) replace
      `best` exactly when their 32-bit score sum is strictly greater. */
  function Candidate(items: seq<Item>, item: Item, order: AxisOrder, box: PackingBox,
                     results: (PackingResult, PackingResult, PackingResult), best: PackingResult,
                     mode: Bounds): (r: PackingResult)
    requires order.Valid() && ValidItem(item) && item in items && Fits(box.size, item.size)
    requires SubResultsSound(mode, items, item, order, box, results)
    requires Sound(mode, best, box, items)
    ensures Sound(mode, r, box, items)
    ensures var score := (results.0.totalScore + results.1.totalScore + results.2.totalScore + item.score) % U32;
      if score > best.totalScore then r.totalScore == score && r.placements[0] == ItemPlacement(item, box.origin)
      else r == best
  {
    var score := (results.0.totalScore + results.1.totalScore + results.2.totalScore + item.score) % U32;
    if score > best.totalScore then Assemble(items, item, order, box, results, mode) else best
  }

  /** Each sub-packing is sound in its remainder, moved to the origin. */
  predicate SubResultsSound(mode: Bounds, items: seq<Item>, item: Item, order: AxisOrder, box: PackingBox,
                            results: (PackingResult, PackingResult, PackingResult))
    requires order.Valid() && ValidItem(item) && Fits(box.size, item.size)
  {
    var subs := Split3(box, order, item.size);
    && Sound(mode, results.0, AtOrigin(subs.0.size), items)
    && Sound(mode, results.1, AtOrigin(subs.1.size), items)
    && Sound(mode, results.2, AtOrigin(subs.2.size), items)
  }

  /** The packing built from one cut order: the item at the box's corner,
      then the three sub-packings moved to their remainders. */
  function Assemble(items: seq<Item>, item: Item, order: AxisOrder, box: PackingBox,
                    results: (PackingResult, PackingResult, PackingResult), mode: Bounds): (r: PackingResult)
    requires order.Valid() && ValidItem(item) && item in items && Fits(box.size, item.size)
    requires SubResultsSound(mode, items, item, order, box, results)
    ensures Sound(mode, r, box, items)
    ensures r.totalScore == (results.0.totalScore + results.1.totalScore + results.2.totalScore + item.score) % U32
    ensures |r.placements| >= 1 && r.placements[0] == ItemPlacement(item, box.origin)
  {
    var subs := Split3(box, order, item.size);
    var moved := (Translate(results.0, subs.0.origin), Translate(results.1, subs.1.origin),
                  Translate(results.2, subs.2.origin));
    if mode == Componentwise then
      AssembleValid(items, item, box, results, subs);
      Combine(moved, ItemPlacement(item, box.origin))
    else
      AssembleScored(items, item, box, results, subs);
      Combine(moved, ItemPlacement(item, box.origin))
  }

  /** The moved sub-packings and the item at the corner form a valid packing
      of the box, given the geometry of the three remainders. */
  lemma AssembleValid(items: seq<Item>, item: Item, box: PackingBox,
                      results: (PackingResult, PackingResult, PackingResult), subs: (PackingBox, PackingBox, PackingBox))
    requires ValidItem(item) && item in items && Fits(box.size, item.size)
    requires ValidPacking(results.0, AtOrigin(subs.0.size), items)
    requires ValidPacking(results.1, AtOrigin(subs.1.size), items)
    requires ValidPacking(results.2, AtOrigin(subs.2.size), items)
    requires var itemBox := PackingBox(box.origin, item.size);
      && Inside(subs.0, box) && Inside(subs.1, box) && Inside(subs.2, box)
      && Disjoint(subs.0, subs.1) && Disjoint(subs.0, subs.2) && Disjoint(subs.1, subs.2)
      && Disjoint(itemBox, subs.0) && Disjoint(itemBox, subs.1) && Disjoint(itemBox, subs.2)
    ensures
      var moved := (Translate(results.0, subs.0.origin), Translate(results.1, subs.1.origin),
                    Translate(results.2, subs.2.origin));
      ValidPacking(Combine(moved, ItemPlacement(item, box.origin)), box, items)
  {
    var moved := (Translate(results.0, subs.0.origin), Translate(results.1, subs.1.origin),
                  Translate(results.2, subs.2.origin));
    TranslateValid(results.0, AtOrigin(subs.0.size), subs.0.origin, items);
    TranslateValid(results.1, AtOrigin(subs.1.size), subs.1.origin, items);
    TranslateValid(results.2, AtOrigin(subs.2.size), subs.2.origin, items);
    assert Shift(AtOrigin(subs.0.size), subs.0.origin) == subs.0;
    assert Shift(AtOrigin(subs.1.size), subs.1.origin) == subs.1;
    assert Shift(AtOrigin(subs.2.size), subs.2.origin) == subs.2;
    CombineValid(moved, subs, item, box, items);
  }

  /** Whatever their geometry, the moved sub-packings and the item at the
      corner keep the wrapped score sum and draw only on the given items. */
  lemma AssembleScored(items: seq<Item>, item: Item, box: PackingBox,
                       results: (PackingResult, PackingResult, PackingResult), subs: (PackingBox, PackingBox, PackingBox))
    requires item in items
    requires Sound(Lexicographic, results.0, AtOrigin(subs.0.size), items)
    requires Sound(Lexicographic, results.1, AtOrigin(subs.1.size), items)
    requires Sound(Lexicographic, results.2, AtOrigin(subs.2.size), items)
    ensures
      var moved := (Translate(results.0, subs.0.origin), Translate(results.1, subs.1.origin),
                    Translate(results.2, subs.2.origin));
      Sound(Lexicographic, Combine(moved, ItemPlacement(item, box.origin)), box, items)
  {
    var moved := (Translate(results.0, subs.0.origin), Translate(results.1, subs.1.origin),
                  Translate(results.2, subs.2.origin));
    TranslateSound(Lexicographic, results.0, AtOrigin(subs.0.size), subs.0.origin, items);
    TranslateSound(Lexicographic, results.1, AtOrigin(subs.1.size), subs.1.origin, items);
    TranslateSound(Lexicographic, results.2, AtOrigin(subs.2.size), subs.2.origin, items);
    var placement := ItemPlacement(item, box.origin);
    CombineScoreConsistent(moved, placement);
    var r := Combine(moved, placement);
    var a, b, c := moved.0.placements, moved.1.placements, moved.2.placements;
    forall i | 0 <= i < |r.placements|
      ensures r.placements[i].item in items
    {
      if i == 0 {
      } else if i <= |a| {
        assert r.placements[i] == r.placements[1..][i - 1] == a[i - 1];
      } else if i <= |a| + |b| {
        assert r.placements[i] == r.placements[1..][i - 1] == b[i - 1 - |a|];
      } else {
        assert r.placements[i] == r.placements[1..][i - 1] == c[i - 1 - |a| - |b|];
      }
    }
  }

  /** `b` lies below every item's sorted size and below `INT_MAX` on every axis. */
  predicate LowerBound(items: seq<Item>, b: Vec3) {
    && Fits(Vec3(IntMax, IntMax, IntMax), b)
    && forall i :: 0 <= i < |items| ==> Fits(Sort(items[i].size), b)
  }

  /** The `min_volume` fold of `pack_items`: the component-wise minimum of the
      items' sorted sizes, starting from `INT_MAX` on every axis. It is the
      greatest such lower bound. */
  function MinVolume(items: seq<Item>): (r: Vec3)
    ensures forall i :: 0 <= i < |items| ==> Fits(Sort(items[i].size), r)
    ensures Fits(Vec3(IntMax, IntMax, IntMax), r)
    ensures forall b :: LowerBound(items, b) ==> Fits(r, b)
  {
    if |items| == 0 then Vec3(IntMax, IntMax, IntMax)
    else
      var front := items[..|items| - 1];
      var acc := MinVolume(front);
      var last := Sort(items[|items| - 1].size);
      var r := ComponentMin(acc, last);
      forall i | 0 <= i < |items|
        ensures Fits(Sort(items[i].size), r)
      {
        if i < |items| - 1 {
          assert items[i] == front[i];
          assert Fits(Sort(items[i].size), acc) && Fits(acc, r);
        }
      }
      forall b | LowerBound(items, b)
        ensures Fits(r, b)
      {
        forall i | 0 <= i < |front|
          ensures Fits(Sort(front[i].size), b)
        {
          assert front[i] == items[i];
        }
        assert LowerBound(front, b);
      }
      r
  }

  /** The `min_volume` test only discards boxes that no item fits. */
  lemma PruneSound(items: seq<Item>, size: Vec3)
    requires !Fits(Sort(size), MinVolume(items))
    ensures forall i :: 0 <= i < |items| ==> !Fits(size, items[i].size)
  {
    forall i | 0 <= i < |items|
      ensures !Fits(size, items[i].size)
    {
      if Fits(size, items[i].size) {
        SortMonotone(size, items[i].size);
        FitsPartialOrder(Sort(size), Sort(items[i].size), MinVolume(items));
        assert false;
      }
    }
  }

  /** Pruning changes nothing: on a pruned box the unpruned search over all
      items also ends with the empty packing and leaves the cache as it was. */
  lemma PruneAgrees(items: seq<Item>, box: PackingBox, cache: Cache<PackingResult>, mode: Bounds)
    requires ValidItems(items) && CacheOk(cache, items, mode)
    requires !Fits(Sort(box.size), MinVolume(items))
    ensures Sound(mode, EmptyResult, box, items) &&
      BestOverItems(items, 0, box, cache, MinVolume(items), EmptyResult, mode) == Packed(EmptyResult, cache)
  {
    EmptyValid(box, items);
    PruneSound(items, box.size);
  }

  /** `pack_items`: no items give the empty packing; otherwise the packing
      of the initial box with a fresh cache of cell size 1000, looked up
      under `mode`. */
  function PackItems(items: seq<Item>, initialBox: PackingBox, mode: Bounds): (r: PackingResult)
    requires ValidItems(items)
    ensures |items| == 0 ==> r == EmptyResult
    ensures ScoreConsistent(r) && AllFrom(r.placements, items)
    ensures mode == Componentwise ==> ValidPacking(r, AtOrigin(initialBox.size), items)
  {
    if |items| == 0 then EmptyResult
    else PackImpl(items, initialBox, Cache(CellSize, []), MinVolume(items), mode).result
  }

  /** With the lexicographic bounds of `try_get`, a packing stored for a
      3x5x5 box whose items span 1x5x5 is served to a 2x1x1 box it does not
      fit in; the component-wise lookup refuses it. */
  lemma LexicographicLookupServesOversizedPacking()
    ensures
      var item := Item(0, 1, Vec3(1, 5, 5));
      var stored := PackingResult(1, [ItemPlacement(item, Zero)]);
      var cache := BinPackCache.Add(Cache(CellSize, []), Vec3(1, 5, 5), Vec3(3, 5, 5), stored);
      && ValidPacking(stored, AtOrigin(Vec3(3, 5, 5)), [item])
      && TryGet(cache, Vec3(2, 1, 1)) == Some(stored)
      && !ValidPacking(stored, AtOrigin(Vec3(2, 1, 1)), [item])
      && TryGetFits(cache, Vec3(2, 1, 1)) == None
  {
    var item := Item(0, 1, Vec3(1, 5, 5));
    var stored := PackingResult(1, [ItemPlacement(item, Zero)]);
    var cache := BinPackCache.Add(Cache(CellSize, []), Vec3(1, 5, 5), Vec3(3, 5, 5), stored);
    var query := Vec3(2, 1, 1);
    var key := SpatialKey(0, 0, 0);
    assert ScoreSum(stored.placements) == 1 + ScoreSum([]);
    var cv := CachedValue(stored, Vec3(1, 5, 5), Vec3(3, 5, 5));
    assert KeyFor(CellSize, Vec3(1, 5, 5)) == key;
    assert KeyFor(CellSize, Vec3(3, 5, 5)) == key;
    assert KeyFor(CellSize, query) == key;
    assert (key, cv) in cache.cells;
    assert cache.cells[0] == (key, cv);
    assert Hit(cache, 0, query, Lexicographic);
    assert End(Region(stored.placements[0]), Y) > End(AtOrigin(query), Y);
    forall i | 0 <= i < |cache.cells|
      ensures !Hit(cache, i, query, Componentwise)
    {
      assert cache.cells[i].1 == cv;
    }
  }
}
