/**
  The spatial cache of the bin packer (`calc/binpack_cache.hpp`). A packing
  computed for a box of size `box_size` whose items occupy `items_aabb` is
  stored under every grid key between the keys of those two vectors; a
  lookup for a box size inspects the entries stored under its own key.

  The source's `unordered_multimap` is a sequence of (key, value) entries in
  insertion order here; a lookup returns the first accepted entry.
*/
module BinPackCache {
  import opened Vector3
  import opened Wrappers

  datatype SpatialKey = SpatialKey(x: int, y: int, z: int)

  /** C++ `/` on `int`: the quotient truncated toward zero. */
  function TruncDiv(a: int, b: int): (q: int)
    requires b != 0
    ensures b > 0 && a >= 0 ==> q * b <= a < (q + 1) * b
    ensures b > 0 && a < 0 ==> (q - 1) * b < a <= q * b
  {
    var n := if a < 0 then -a else a;
    var d := if b < 0 then -b else b;
    if (a < 0) != (b < 0) then -(n / d) else n / d
  }

  lemma DivMonotone(m: nat, n: nat, b: int)
    requires b > 0 && m <= n
    ensures m / b <= n / b
  {
    var q, q' := m / b, n / b;
    assert q * b + m % b == m && q' * b + n % b == n;
    if q > q' {
      MulLe(q' + 1, q, b);
      assert false;
    }
  }

  lemma MulLe(x: int, y: int, b: int)
    requires x <= y && b > 0
    ensures x * b <= y * b
  {
    assert y * b - x * b == (y - x) * b;
  }

  /** Truncating division by a positive divisor is monotone. */
  lemma TruncDivMonotone(a: int, a': int, b: int)
    requires b > 0 && a <= a'
    ensures TruncDiv(a, b) <= TruncDiv(a', b)
  {
    if 0 <= a {
      assert TruncDiv(a, b) == a / b && TruncDiv(a', b) == a' / b;
      DivMonotone(a, a', b);
    } else if a' < 0 {
      assert TruncDiv(a, b) == -((-a) / b) && TruncDiv(a', b) == -((-a') / b);
      DivMonotone(-a', -a, b);
    } else {
      assert TruncDiv(a, b) == -((-a) / b) && TruncDiv(a', b) == a' / b;
      DivMonotone(0, -a, b);
      DivMonotone(0, a', b);
    }
  }

  /** `key_for_vector`: each component divided by the cell size. */
  function KeyFor(cellSize: int, v: Vec3): SpatialKey
    requires cellSize != 0
  {
    SpatialKey(TruncDiv(v.x, cellSize), TruncDiv(v.y, cellSize), TruncDiv(v.z, cellSize))
  }

  /** Keys of component-wise larger vectors are component-wise larger. */
  lemma KeyForMonotone(cellSize: int, v: Vec3, w: Vec3)
    requires cellSize > 0 && Fits(w, v)
    ensures KeyBetween(KeyFor(cellSize, v), KeyFor(cellSize, v), KeyFor(cellSize, w))
  {
    TruncDivMonotone(v.x, w.x, cellSize);
    TruncDivMonotone(v.y, w.y, cellSize);
    TruncDivMonotone(v.z, w.z, cellSize);
  }

  predicate KeyBetween(k: SpatialKey, lo: SpatialKey, hi: SpatialKey) {
    lo.x <= k.x <= hi.x && lo.y <= k.y <= hi.y && lo.z <= k.z <= hi.z
  }

  /** The innermost loop of `add`: keys (x, y, z..hi) in order. */
  function ZKeys(x: int, y: int, z: int, hi: int): (r: seq<SpatialKey>)
    ensures forall k :: k in r <==> k.x == x && k.y == y && z <= k.z <= hi
    decreases hi - z
  {
    if z > hi then [] else [SpatialKey(x, y, z)] + ZKeys(x, y, z + 1, hi)
  }

  /** The middle loop of `add`: keys (x, y..hi.y, lo.z..hi.z) in order. */
  function YKeys(x: int, y: int, lo: SpatialKey, hi: SpatialKey): (r: seq<SpatialKey>)
    ensures forall k :: k in r <==> k.x == x && y <= k.y <= hi.y && lo.z <= k.z <= hi.z
    decreases hi.y - y
  {
    if y > hi.y then [] else ZKeys(x, y, lo.z, hi.z) + YKeys(x, y + 1, lo, hi)
  }

  /** The three nested loops of `add`: every key between `lo` and `hi`. */
  function KeyRange(x: int, lo: SpatialKey, hi: SpatialKey): (r: seq<SpatialKey>)
    ensures forall k :: k in r <==> x <= k.x <= hi.x && lo.y <= k.y <= hi.y && lo.z <= k.z <= hi.z
    decreases hi.x - x
  {
    if x > hi.x then [] else YKeys(x, lo.y, lo, hi) + KeyRange(x + 1, lo, hi)
  }

  datatype CachedValue<V> = CachedValue(value: V, itemsAabb: Vec3, boxSize: Vec3)

  datatype Cache<V> = Cache(cellSize: int, cells: seq<(SpatialKey, CachedValue<V>)>)

  /** `add`: store the value under every key from key(items_aabb) to key(box_size). */
  function Add<V>(cache: Cache<V>, itemsAabb: Vec3, boxSize: Vec3, value: V): (r: Cache<V>)
    requires cache.cellSize != 0
    ensures r.cellSize == cache.cellSize
    ensures |r.cells| >= |cache.cells| && r.cells[..|cache.cells|] == cache.cells
    ensures forall i :: |cache.cells| <= i < |r.cells| ==>
      r.cells[i].1 == CachedValue(value, itemsAabb, boxSize)
      && KeyBetween(r.cells[i].0, KeyFor(cache.cellSize, itemsAabb), KeyFor(cache.cellSize, boxSize))
    ensures forall k :: KeyBetween(k, KeyFor(cache.cellSize, itemsAabb), KeyFor(cache.cellSize, boxSize)) ==>
      (k, CachedValue(value, itemsAabb, boxSize)) in r.cells
  {
    var lo, hi := KeyFor(cache.cellSize, itemsAabb), KeyFor(cache.cellSize, boxSize);
    var keys := KeyRange(lo.x, lo, hi);
    var cv := CachedValue(value, itemsAabb, boxSize);
    var added := seq(|keys|, i requires 0 <= i < |keys| => (keys[i], cv));
    var cells := cache.cells + added;
    assert forall i :: |cache.cells| <= i < |cells| ==> cells[i] == added[i - |cache.cells|];
    assert forall k :: k in keys ==> (k, cv) in added by {
      forall k | k in keys
        ensures (k, cv) in added
      {
        var i :| 0 <= i < |keys| && keys[i] == k;
        assert added[i] == (k, cv);
      }
    }
    Cache(cache.cellSize, cells)
  }

  /** How a lookup decides that a stored packing serves a box size. */
  datatype Bounds = Lexicographic | Componentwise

  predicate Accepts<V>(mode: Bounds, cv: CachedValue<V>, boxSize: Vec3) {
    match mode
    case Lexicographic => LexLe(cv.itemsAabb, boxSize) && LexLe(boxSize, cv.boxSize)
    case Componentwise => Fits(boxSize, cv.itemsAabb) && Fits(cv.boxSize, boxSize)
  }

  /** Component-wise acceptance implies lexicographic acceptance. */
  lemma ComponentwiseAcceptsLexicographic<V>(cv: CachedValue<V>, boxSize: Vec3)
    requires Accepts(Componentwise, cv, boxSize)
    ensures Accepts(Lexicographic, cv, boxSize)
  {
    FitsPartialOrder(boxSize, cv.itemsAabb, cv.itemsAabb);
    FitsPartialOrder(cv.boxSize, boxSize, boxSize);
  }

  predicate Hit<V>(cache: Cache<V>, i: int, boxSize: Vec3, mode: Bounds)
    requires cache.cellSize != 0
  {
    0 <= i < |cache.cells| && cache.cells[i].0 == KeyFor(cache.cellSize, boxSize)
    && Accepts(mode, cache.cells[i].1, boxSize)
  }

  function FirstHit<V>(cache: Cache<V>, from: nat, boxSize: Vec3, mode: Bounds): (r: Option<V>)
    requires cache.cellSize != 0
    ensures r.Some? ==> exists i :: from <= i && Hit(cache, i, boxSize, mode) && cache.cells[i].1.value == r.value
    ensures r.None? ==> forall i :: from <= i < |cache.cells| ==> !Hit(cache, i, boxSize, mode)
    decreases |cache.cells| - from
  {
    if from >= |cache.cells| then None
    else if Hit(cache, from, boxSize, mode) then Some(cache.cells[from].1.value)
    else FirstHit(cache, from + 1, boxSize, mode)
  }

  /** The lookup loop of `try_get` under the given acceptance rule. */
  function Lookup<V>(cache: Cache<V>, boxSize: Vec3, mode: Bounds): (r: Option<V>)
    requires cache.cellSize != 0
    ensures r.Some? ==> exists i :: Hit(cache, i, boxSize, mode) && cache.cells[i].1.value == r.value
    ensures r.None? <==> forall i :: 0 <= i < |cache.cells| ==> !Hit(cache, i, boxSize, mode)
    ensures |cache.cells| == 0 ==> r == None
  {
    FirstHit(cache, 0, boxSize, mode)
  }

  /** `try_get` as written: `items_aabb <= box_size <= cached.box_size` with the
      lexicographic `operator<=>` of `vector3`. */
  function TryGet<V>(cache: Cache<V>, boxSize: Vec3): (r: Option<V>)
    requires cache.cellSize != 0
    ensures r.Some? ==> exists i ::
      (0 <= i < |cache.cells| && cache.cells[i].0 == KeyFor(cache.cellSize, boxSize)
       && LexLe(cache.cells[i].1.itemsAabb, boxSize) && LexLe(boxSize, cache.cells[i].1.boxSize)
       && cache.cells[i].1.value == r.value)
    ensures r.None? <==> forall i :: 0 <= i < |cache.cells| ==>
      !(cache.cells[i].0 == KeyFor(cache.cellSize, boxSize)
        && LexLe(cache.cells[i].1.itemsAabb, boxSize) && LexLe(boxSize, cache.cells[i].1.boxSize))
    ensures |cache.cells| == 0 ==> r == None
  {
    assert forall i :: 0 <= i < |cache.cells| ==>
      (Hit(cache, i, boxSize, Lexicographic) <==>
         (cache.cells[i].0 == KeyFor(cache.cellSize, boxSize) && Accepts(Lexicographic, cache.cells[i].1, boxSize)));
    Lookup(cache, boxSize, Lexicographic)
  }

  /** `try_get` with the component-wise comparison the cache's key ranges are
      built for: a stored packing is returned only for a box that contains its
      items' bounding box and is contained in the box it was computed for. */
  function TryGetFits<V>(cache: Cache<V>, boxSize: Vec3): (r: Option<V>)
    requires cache.cellSize != 0
    ensures r.Some? ==> exists i ::
      (0 <= i < |cache.cells| && cache.cells[i].0 == KeyFor(cache.cellSize, boxSize)
       && Fits(boxSize, cache.cells[i].1.itemsAabb) && Fits(cache.cells[i].1.boxSize, boxSize)
       && cache.cells[i].1.value == r.value)
    ensures r.None? <==> forall i :: 0 <= i < |cache.cells| ==>
      !(cache.cells[i].0 == KeyFor(cache.cellSize, boxSize)
        && Fits(boxSize, cache.cells[i].1.itemsAabb) && Fits(cache.cells[i].1.boxSize, boxSize))
    ensures |cache.cells| == 0 ==> r == None
  {
    assert forall i :: 0 <= i < |cache.cells| ==>
      (Hit(cache, i, boxSize, Componentwise) <==>
         (cache.cells[i].0 == KeyFor(cache.cellSize, boxSize) && Accepts(Componentwise, cache.cells[i].1, boxSize)));
    Lookup(cache, boxSize, Componentwise)
  }

  /** After `add(aabb, box, v)`, every box size between the two (component-wise)
      finds an entry, under either acceptance rule. */
  lemma AddThenLookup<V>(cache: Cache<V>, itemsAabb: Vec3, boxSize: Vec3, value: V, query: Vec3, mode: Bounds)
    requires cache.cellSize > 0
    requires Fits(query, itemsAabb) && Fits(boxSize, query)
    ensures Lookup(Add(cache, itemsAabb, boxSize, value), query, mode).Some?
  {
    var c := Add(cache, itemsAabb, boxSize, value);
    var k := KeyFor(cache.cellSize, query);
    KeyForMonotone(cache.cellSize, itemsAabb, query);
    KeyForMonotone(cache.cellSize, query, boxSize);
    var cv := CachedValue(value, itemsAabb, boxSize);
    assert (k, cv) in c.cells;
    var i :| 0 <= i < |c.cells| && c.cells[i] == (k, cv);
    assert Accepts(Componentwise, cv, query);
    if mode == Lexicographic {
      ComponentwiseAcceptsLexicographic(cv, query);
    }
    assert Hit(c, i, query, mode);
  }
}
