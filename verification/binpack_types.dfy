/**
  Value types of the guillotine bin packer (`calc/binpack_types.hpp`):
  items, boxes with their 2-way and 3-way splits, placements and results.

  Scores are `uint32_t` in the source; sums of scores are taken modulo 2^32
  explicitly.
*/
module BinPackTypes {
  import opened Vector3

  const U32: int := 0x1_0000_0000

  datatype Item = Item(id: nat, score: nat, size: Vec3)

  /** An item as the packer expects it: a 32-bit score and a positive size. */
  predicate ValidItem(item: Item) {
    item.id < U32 && item.score < U32 && item.size.x >= 1 && item.size.y >= 1 && item.size.z >= 1
  }

  datatype PackingBox = PackingBox(origin: Vec3, size: Vec3)

  /** Upper corner (exclusive) of a box along one axis. */
  function End(b: PackingBox, a: Axis): int {
    b.origin.Get(a) + b.size.Get(a)
  }

  /** `inner` lies within `outer` along every axis. */
  predicate Inside(inner: PackingBox, outer: PackingBox) {
    forall a: Axis :: outer.origin.Get(a) <= inner.origin.Get(a) && End(inner, a) <= End(outer, a)
  }

  /** The two boxes are separated along axis `a`. */
  predicate SeparatedAlong(p: PackingBox, q: PackingBox, a: Axis) {
    End(p, a) <= q.origin.Get(a) || End(q, a) <= p.origin.Get(a)
  }

  /** The two boxes share no interior point. */
  predicate Disjoint(p: PackingBox, q: PackingBox) {
    SeparatedAlong(p, q, X) || SeparatedAlong(p, q, Y) || SeparatedAlong(p, q, Z)
  }

  /** Disjointness is inherited by sub-boxes. */
  lemma DisjointInside(p: PackingBox, p': PackingBox, q: PackingBox, q': PackingBox)
    requires Inside(p, p') && Inside(q, q') && Disjoint(p', q')
    ensures Disjoint(p, q)
  {
    assert forall a: Axis :: SeparatedAlong(p', q', a) ==> SeparatedAlong(p, q, a);
  }

  lemma InsideTransitive(p: PackingBox, q: PackingBox, r: PackingBox)
    requires Inside(p, q) && Inside(q, r)
    ensures Inside(p, r)
  {
  }

  /** The private 2-way `split`: the first piece keeps `offset` along `axis`,
      the second piece is the rest of the box beyond it. */
  function Split2(box: PackingBox, axis: Axis, offset: int): (r: (PackingBox, PackingBox))
    ensures r.0.origin == box.origin
    ensures r.0.size.Get(axis) == offset
    ensures r.0.size.Get(axis) + r.1.size.Get(axis) == box.size.Get(axis)
    ensures r.1.origin.Get(axis) == box.origin.Get(axis) + offset
    ensures forall b: Axis :: b != axis ==>
      r.0.size.Get(b) == box.size.Get(b) && r.1.size.Get(b) == box.size.Get(b) && r.1.origin.Get(b) == box.origin.Get(b)
  {
    var piece1 := PackingBox(box.origin, box.size.With(axis, offset));
    var piece2 := PackingBox(box.origin.With(axis, box.origin.Get(axis) + offset),
                             box.size.With(axis, box.size.Get(axis) - offset));
    (piece1, piece2)
  }

  /** A cut within the box leaves two disjoint pieces inside it. */
  lemma Split2Geometry(box: PackingBox, axis: Axis, offset: int)
    requires 0 <= offset <= box.size.Get(axis)
    ensures var r := Split2(box, axis, offset);
      Inside(r.0, box) && Inside(r.1, box) && Disjoint(r.0, r.1)
  {
    var r := Split2(box, axis, offset);
    assert SeparatedAlong(r.0, r.1, axis);
  }

  /** An order in which the three axes are cut. */
  datatype AxisOrder = AxisOrder(first: Axis, second: Axis, third: Axis) {
    predicate Valid() {
      first != second && second != third && first != third
    }
  }

  /** The six cut orders tried by the packer, in its order. */
  const SplitOrders: seq<AxisOrder> := [
    AxisOrder(X, Y, Z), AxisOrder(X, Z, Y), AxisOrder(Y, X, Z),
    AxisOrder(Y, Z, X), AxisOrder(Z, X, Y), AxisOrder(Z, Y, X)
  ]

  lemma SplitOrdersValid(k: nat)
    requires k < |SplitOrders|
    ensures SplitOrders[k].Valid()
  {
  }

  /** The 3-way `split`: cut along the three axes in turn at the item's size
      and keep the three remainders. The piece left after the last cut is
      the item's own box at the origin of `box`. */
  function Split3(box: PackingBox, order: AxisOrder, size: Vec3): (r: (PackingBox, PackingBox, PackingBox))
    requires order.Valid()
    ensures Fits(box.size, size) && Fits(size, Zero) ==>
      var item := PackingBox(box.origin, size);
      && Inside(r.0, box) && Inside(r.1, box) && Inside(r.2, box)
      && Disjoint(r.0, r.1) && Disjoint(r.0, r.2) && Disjoint(r.1, r.2)
      && Disjoint(item, r.0) && Disjoint(item, r.1) && Disjoint(item, r.2)
    ensures Fits(box.size, size) && Fits(size, Vec3(1, 1, 1)) ==>
      && Fits(r.0.size, Zero) && Fits(r.1.size, Zero) && Fits(r.2.size, Zero)
      && SizeSum(r.0.size) < SizeSum(box.size)
      && SizeSum(r.1.size) < SizeSum(box.size)
      && SizeSum(r.2.size) < SizeSum(box.size)
  {
    var p1 := Split2(box, order.first, size.Get(order.first));
    var p2 := Split2(p1.0, order.second, size.Get(order.second));
    var p3 := Split2(p2.0, order.third, size.Get(order.third));
    Split3Facts(box, order, size, p1, p2, p3);
    (p1.1, p2.1, p3.1)
  }

  /** The postconditions of `Split3`, for the three cuts it makes. */
  lemma Split3Facts(box: PackingBox, order: AxisOrder, size: Vec3,
                    p1: (PackingBox, PackingBox), p2: (PackingBox, PackingBox), p3: (PackingBox, PackingBox))
    requires order.Valid()
    requires p1 == Split2(box, order.first, size.Get(order.first))
    requires p2 == Split2(p1.0, order.second, size.Get(order.second))
    requires p3 == Split2(p2.0, order.third, size.Get(order.third))
    ensures Fits(box.size, size) && Fits(size, Zero) ==>
      var item := PackingBox(box.origin, size);
      && Inside(p1.1, box) && Inside(p2.1, box) && Inside(p3.1, box)
      && Disjoint(p1.1, p2.1) && Disjoint(p1.1, p3.1) && Disjoint(p2.1, p3.1)
      && Disjoint(item, p1.1) && Disjoint(item, p2.1) && Disjoint(item, p3.1)
    ensures Fits(box.size, size) && Fits(size, Vec3(1, 1, 1)) ==>
      && Fits(p1.1.size, Zero) && Fits(p2.1.size, Zero) && Fits(p3.1.size, Zero)
      && SizeSum(p1.1.size) < SizeSum(box.size)
      && SizeSum(p2.1.size) < SizeSum(box.size)
      && SizeSum(p3.1.size) < SizeSum(box.size)
  {
    if Fits(box.size, size) && Fits(size, Zero) {
      SplitGeometry(box, order, size);
      SplitSizes(box, order, size);
    }
  }

  function SizeSum(v: Vec3): int {
    v.x + v.y + v.z
  }

  lemma SizeSumByAxes(v: Vec3, order: AxisOrder)
    requires order.Valid()
    ensures SizeSum(v) == v.Get(order.first) + v.Get(order.second) + v.Get(order.third)
  {
  }

  /** Each remainder has a non-negative size and a smaller size sum than the box. */
  lemma SplitSizes(box: PackingBox, order: AxisOrder, size: Vec3)
    requires order.Valid() && Fits(box.size, size) && Fits(size, Zero)
    ensures
      var p1 := Split2(box, order.first, size.Get(order.first));
      var p2 := Split2(p1.0, order.second, size.Get(order.second));
      var p3 := Split2(p2.0, order.third, size.Get(order.third));
      var remaining1, remaining2, remaining3 := p1.1, p2.1, p3.1;
      && Fits(remaining1.size, Zero) && Fits(remaining2.size, Zero) && Fits(remaining3.size, Zero)
      && (Fits(size, Vec3(1, 1, 1)) ==>
          && SizeSum(remaining1.size) < SizeSum(box.size)
          && SizeSum(remaining2.size) < SizeSum(box.size)
          && SizeSum(remaining3.size) < SizeSum(box.size))
  {
    var a1, a2, a3 := order.first, order.second, order.third;
    var p1 := Split2(box, a1, size.Get(a1));
    var p2 := Split2(p1.0, a2, size.Get(a2));
    var p3 := Split2(p2.0, a3, size.Get(a3));
    RemainderAxes(box, order, size);
    SizesFromAxes(box.size, size, p1.1.size, p2.1.size, p3.1.size, order);
  }

  /** The size facts of `SplitSizes`, from the remainders' extents alone. */
  lemma SizesFromAxes(S: Vec3, v: Vec3, r1: Vec3, r2: Vec3, r3: Vec3, order: AxisOrder)
    requires order.Valid() && Fits(S, v) && Fits(v, Zero)
    requires var a1, a2, a3 := order.first, order.second, order.third;
      && r1.Get(a1) == S.Get(a1) - v.Get(a1) && r1.Get(a2) == S.Get(a2) && r1.Get(a3) == S.Get(a3)
      && r2.Get(a1) == v.Get(a1) && r2.Get(a2) == S.Get(a2) - v.Get(a2) && r2.Get(a3) == S.Get(a3)
      && r3.Get(a1) == v.Get(a1) && r3.Get(a2) == v.Get(a2) && r3.Get(a3) == S.Get(a3) - v.Get(a3)
    ensures Fits(r1, Zero) && Fits(r2, Zero) && Fits(r3, Zero)
    ensures Fits(v, Vec3(1, 1, 1)) ==> SizeSum(r1) < SizeSum(S) && SizeSum(r2) < SizeSum(S) && SizeSum(r3) < SizeSum(S)
  {
    SizeSumByAxes(S, order);
    SizeSumByAxes(v, order);
    SizeSumByAxes(r1, order);
    SizeSumByAxes(r2, order);
    SizeSumByAxes(r3, order);
    FitsByAxes(S, v, order);
    FitsByAxes(v, Zero, order);
    FitsByAxes(v, Vec3(1, 1, 1), order);
    NonNegByAxes(r1, order);
    NonNegByAxes(r2, order);
    NonNegByAxes(r3, order);
  }

  lemma FitsByAxes(a: Vec3, b: Vec3, order: AxisOrder)
    requires order.Valid()
    ensures Fits(a, b) <==>
      a.Get(order.first) >= b.Get(order.first) && a.Get(order.second) >= b.Get(order.second) &&
      a.Get(order.third) >= b.Get(order.third)
  {
  }

  /** The extents of the three remainders, axis by axis in cut order. */
  lemma RemainderAxes(box: PackingBox, order: AxisOrder, size: Vec3)
    requires order.Valid()
    ensures
      var a1, a2, a3 := order.first, order.second, order.third;
      var S, v := box.size, size;
      var p1 := Split2(box, a1, v.Get(a1));
      var p2 := Split2(p1.0, a2, v.Get(a2));
      var p3 := Split2(p2.0, a3, v.Get(a3));
      && p1.1.size.Get(a1) == S.Get(a1) - v.Get(a1) && p1.1.size.Get(a2) == S.Get(a2) && p1.1.size.Get(a3) == S.Get(a3)
      && p2.1.size.Get(a1) == v.Get(a1) && p2.1.size.Get(a2) == S.Get(a2) - v.Get(a2) && p2.1.size.Get(a3) == S.Get(a3)
      && p3.1.size.Get(a1) == v.Get(a1) && p3.1.size.Get(a2) == v.Get(a2) && p3.1.size.Get(a3) == S.Get(a3) - v.Get(a3)
  {
    var a1, a2, a3 := order.first, order.second, order.third;
    var S, v := box.size, size;
    var p1 := Split2(box, a1, v.Get(a1));
    var p2 := Split2(p1.0, a2, v.Get(a2));
    var p3 := Split2(p2.0, a3, v.Get(a3));
    assert p1.0.size.Get(a1) == v.Get(a1);
    assert p1.0.size.Get(a2) == S.Get(a2) && p1.0.size.Get(a3) == S.Get(a3);
    assert p2.0.size.Get(a1) == v.Get(a1) && p2.0.size.Get(a2) == v.Get(a2);
    assert p2.0.size.Get(a3) == S.Get(a3);
  }

  lemma NonNegByAxes(v: Vec3, order: AxisOrder)
    requires order.Valid()
    ensures Fits(v, Zero) <==> v.Get(order.first) >= 0 && v.Get(order.second) >= 0 && v.Get(order.third) >= 0
  {
  }

  lemma SplitGeometry(box: PackingBox, order: AxisOrder, size: Vec3)
    requires order.Valid() && Fits(box.size, size) && Fits(size, Zero)
    ensures
      var p1 := Split2(box, order.first, size.Get(order.first));
      var p2 := Split2(p1.0, order.second, size.Get(order.second));
      var p3 := Split2(p2.0, order.third, size.Get(order.third));
      var remaining1, remaining2, remaining3 := p1.1, p2.1, p3.1;
      var item := PackingBox(box.origin, size);
      && Inside(remaining1, box) && Inside(remaining2, box) && Inside(remaining3, box)
      && Disjoint(remaining1, remaining2) && Disjoint(remaining1, remaining3) && Disjoint(remaining2, remaining3)
      && Disjoint(item, remaining1) && Disjoint(item, remaining2) && Disjoint(item, remaining3)
  {
    var a1, a2, a3 := order.first, order.second, order.third;
    var p1 := Split2(box, a1, size.Get(a1));
    var p2 := Split2(p1.0, a2, size.Get(a2));
    var p3 := Split2(p2.0, a3, size.Get(a3));
    var reduced1, remaining1, reduced2, remaining2 := p1.0, p1.1, p2.0, p2.1;
    var reduced3, remaining3 := p3.0, p3.1;
    var item := PackingBox(box.origin, size);
    RemainderAxes(box, order, size);
    Split2Geometry(box, a1, size.Get(a1));
    Split2Geometry(reduced1, a2, size.Get(a2));
    Split2Geometry(reduced2, a3, size.Get(a3));
    assert reduced3 == item by {
      assert forall a: Axis :: reduced3.size.Get(a) == size.Get(a);
      assert reduced3.size == Vec3(reduced3.size.Get(X), reduced3.size.Get(Y), reduced3.size.Get(Z));
      assert size == Vec3(size.Get(X), size.Get(Y), size.Get(Z));
    }
    InsideTransitive(reduced2, reduced1, box);
    InsideTransitive(remaining2, reduced1, box);
    InsideTransitive(remaining3, reduced2, box);
    InsideTransitive(reduced3, reduced2, reduced1);
    DisjointInside(remaining2, reduced1, remaining1, remaining1);
    DisjointInside(remaining3, reduced1, remaining1, remaining1);
    DisjointInside(item, reduced1, remaining1, remaining1);
    DisjointInside(remaining3, reduced2, remaining2, remaining2);
    DisjointInside(item, reduced2, remaining2, remaining2);
  }

  datatype ItemPlacement = ItemPlacement(item: Item, position: Vec3)

  /** The box an item occupies once placed. */
  function Region(p: ItemPlacement): PackingBox {
    PackingBox(p.position, p.item.size)
  }

  datatype PackingResult = PackingResult(totalScore: nat, placements: seq<ItemPlacement>)

  const EmptyResult := PackingResult(0, [])

  /** `PackingResult::translate`: shift every placement by `offset`. */
  function Translate(r: PackingResult, offset: Vec3): (t: PackingResult)
    ensures t.totalScore == r.totalScore
    ensures |t.placements| == |r.placements|
    ensures forall i :: 0 <= i < |t.placements| ==>
      t.placements[i].item == r.placements[i].item
      && t.placements[i].position == Add(r.placements[i].position, offset)
  {
    PackingResult(r.totalScore, seq(|r.placements|, i requires 0 <= i < |r.placements| =>
      ItemPlacement(r.placements[i].item, Add(r.placements[i].position, offset))))
  }

  /** Translating back by the opposite offset restores the result. */
  lemma TranslateInverse(r: PackingResult, offset: Vec3)
    ensures Translate(Translate(r, offset), Neg(offset)) == r
  {
    var t := Translate(Translate(r, offset), Neg(offset));
    assert t.placements == r.placements by {
      forall i | 0 <= i < |r.placements|
        ensures t.placements[i] == r.placements[i]
      {
      }
    }
  }

  /** Sum of the scores of the placed items. */
  function ScoreSum(ps: seq<ItemPlacement>): nat {
    if |ps| == 0 then 0 else ps[0].item.score + ScoreSum(ps[1..])
  }

  lemma {:induction false} ScoreSumAppend(a: seq<ItemPlacement>, b: seq<ItemPlacement>)
    ensures ScoreSum(a + b) == ScoreSum(a) + ScoreSum(b)
    decreases |a|
  {
    if |a| == 0 {
      assert a + b == b;
    } else {
      assert (a + b)[1..] == a[1..] + b;
      ScoreSumAppend(a[1..], b);
    }
  }

  /** `total_score` is the 32-bit sum of the placed items' scores. */
  predicate ScoreConsistent(r: PackingResult) {
    r.totalScore == ScoreSum(r.placements) % U32
  }

  /** `combine`: the current item first, then the three sub-results in order;
      the score is the 32-bit sum of the four scores. */
  function Combine(results: (PackingResult, PackingResult, PackingResult), placement: ItemPlacement): (r: PackingResult)
    ensures r.totalScore == (results.0.totalScore + results.1.totalScore + results.2.totalScore + placement.item.score) % U32
    ensures |r.placements| == |results.0.placements| + |results.1.placements| + |results.2.placements| + 1
    ensures r.placements[0] == placement
    ensures r.placements[1..] == results.0.placements + results.1.placements + results.2.placements
  {
    var placements := [placement] + results.0.placements + results.1.placements + results.2.placements;
    assert placements[1..] == results.0.placements + results.1.placements + results.2.placements;
    PackingResult(
      (results.0.totalScore + results.1.totalScore + results.2.totalScore + placement.item.score) % U32,
      placements)
  }

  /** Combining score-consistent results yields a score-consistent result. */
  lemma CombineScoreConsistent(results: (PackingResult, PackingResult, PackingResult), placement: ItemPlacement)
    requires ScoreConsistent(results.0) && ScoreConsistent(results.1) && ScoreConsistent(results.2)
    ensures ScoreConsistent(Combine(results, placement))
  {
    var r := Combine(results, placement);
    var a, b, c := results.0.placements, results.1.placements, results.2.placements;
    ScoreSumAppend(a, b);
    ScoreSumAppend(a + b, c);
    assert r.placements == [placement] + (a + b + c);
    assert ScoreSum(r.placements) == placement.item.score + ScoreSum(a) + ScoreSum(b) + ScoreSum(c);
    ModSum(ScoreSum(a), ScoreSum(b), ScoreSum(c), placement.item.score);
  }

  lemma ModSum(a: nat, b: nat, c: nat, d: nat)
    ensures (a % U32 + b % U32 + c % U32 + d) % U32 == (d + a + b + c) % U32
  {
    var qa, qb, qc := a / U32, b / U32, c / U32;
    assert a == qa * U32 + a % U32;
    assert b == qb * U32 + b % U32;
    assert c == qc * U32 + c % U32;
    assert d + a + b + c == (a % U32 + b % U32 + c % U32 + d) + (qa + qb + qc) * U32;
  }
}
