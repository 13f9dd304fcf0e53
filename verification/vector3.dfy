/**
  Integer 3-vectors: the `geo::vector3<int>` helpers the packers use
  (component access by axis, arithmetic, lexicographic comparison,
  component-wise min/max, `sort`, `fits`, `dot` and `cross`).

  Components are unbounded integers; the source's 32-bit `int` overflow is
  not modelled.
*/
module Vector3 {

  datatype Axis = X | Y | Z

  datatype Vec3 = Vec3(x: int, y: int, z: int) {

    /** The component named by `a` (`operator[]`). */
    function Get(a: Axis): int {
      match a
      case X => x
      case Y => y
      case Z => z
    }

    /** This vector with component `a` replaced by `v`. */
    function With(a: Axis, v: int): (r: Vec3)
      ensures r.Get(a) == v
      ensures forall b: Axis :: b != a ==> r.Get(b) == Get(b)
    {
      match a
      case X => Vec3(v, y, z)
      case Y => Vec3(x, v, z)
      case Z => Vec3(x, y, v)
    }
  }

  const Zero := Vec3(0, 0, 0)

  function Add(a: Vec3, b: Vec3): Vec3 {
    Vec3(a.x + b.x, a.y + b.y, a.z + b.z)
  }

  function Neg(a: Vec3): Vec3 {
    Vec3(-a.x, -a.y, -a.z)
  }

  function Sub(a: Vec3, b: Vec3): Vec3 {
    Vec3(a.x - b.x, a.y - b.y, a.z - b.z)
  }

  function Dot(a: Vec3, b: Vec3): int {
    a.x * b.x + a.y * b.y + a.z * b.z
  }

  function Cross(a: Vec3, b: Vec3): Vec3 {
    Vec3(a.y * b.z - a.z * b.y, a.z * b.x - a.x * b.z, a.x * b.y - a.y * b.x)
  }

  /** The cross product is orthogonal to both of its arguments. */
  lemma CrossOrthogonal(a: Vec3, b: Vec3)
    ensures Dot(a, Cross(a, b)) == 0
    ensures Dot(b, Cross(a, b)) == 0
  {
    var c := Cross(a, b);
    calc {
      Dot(a, c);
      a.x * (a.y * b.z - a.z * b.y) + a.y * (a.z * b.x - a.x * b.z) + a.z * (a.x * b.y - a.y * b.x);
      (a.x * a.y * b.z - a.x * a.y * b.z) + (a.y * a.z * b.x - a.y * a.z * b.x) + (a.x * a.z * b.y - a.x * a.z * b.y);
      0;
    }
    calc {
      Dot(b, c);
      b.x * (a.y * b.z - a.z * b.y) + b.y * (a.z * b.x - a.x * b.z) + b.z * (a.x * b.y - a.y * b.x);
      (a.y * b.x * b.z - a.y * b.x * b.z) + (a.z * b.x * b.y - a.z * b.x * b.y) + (a.x * b.y * b.z - a.x * b.y * b.z);
      0;
    }
  }

  /** Result of the three-way comparison `operator<=>`. */
  datatype Ordering = Less | Equal | Greater {
    function Flip(): Ordering {
      match this
      case Less => Greater
      case Equal => Equal
      case Greater => Less
    }
  }

  function CompareInt(a: int, b: int): Ordering {
    if a < b then Less else if a > b then Greater else Equal
  }

  /** Lexicographic comparison: x first, then y, then z. */
  function Compare(a: Vec3, b: Vec3): (r: Ordering)
    ensures r == Equal <==> a == b
    ensures r == Less <==> a.x < b.x || (a.x == b.x && a.y < b.y) || (a.x == b.x && a.y == b.y && a.z < b.z)
  {
    if CompareInt(a.x, b.x) != Equal then CompareInt(a.x, b.x)
    else if CompareInt(a.y, b.y) != Equal then CompareInt(a.y, b.y)
    else CompareInt(a.z, b.z)
  }

  /** Swapping the operands flips the comparison. */
  lemma CompareAntisymmetric(a: Vec3, b: Vec3)
    ensures Compare(a, b) == Compare(b, a).Flip()
  {
  }

  /** `a <= b` as the source derives it from `<=>`. */
  predicate LexLe(a: Vec3, b: Vec3) {
    Compare(a, b) != Greater
  }

  /** The derived `<=` is a total order. */
  lemma LexLeTotalOrder(a: Vec3, b: Vec3, c: Vec3)
    ensures LexLe(a, a)
    ensures LexLe(a, b) || LexLe(b, a)
    ensures LexLe(a, b) && LexLe(b, a) ==> a == b
    ensures LexLe(a, b) && LexLe(b, c) ==> LexLe(a, c)
  {
  }

  /** `fits(a, b)`: `a` is at least `b` in every component. */
  predicate Fits(a: Vec3, b: Vec3) {
    a.x >= b.x && a.y >= b.y && a.z >= b.z
  }

  /** `fits` is a partial order whose strict part implies the lexicographic one. */
  lemma FitsPartialOrder(a: Vec3, b: Vec3, c: Vec3)
    ensures Fits(a, a)
    ensures Fits(a, b) && Fits(b, a) ==> a == b
    ensures Fits(a, b) && Fits(b, c) ==> Fits(a, c)
    ensures Fits(a, b) ==> LexLe(b, a)
  {
  }

  /** The component-wise minimum is the greatest lower bound under `Fits`. */
  function ComponentMin(a: Vec3, b: Vec3): (r: Vec3)
    ensures Fits(a, r) && Fits(b, r)
    ensures r.x in {a.x, b.x} && r.y in {a.y, b.y} && r.z in {a.z, b.z}
    ensures forall c :: Fits(a, c) && Fits(b, c) ==> Fits(r, c)
  {
    Vec3(if a.x <= b.x then a.x else b.x,
         if a.y <= b.y then a.y else b.y,
         if a.z <= b.z then a.z else b.z)
  }

  /** The component-wise maximum is the least upper bound under `Fits`. */
  function ComponentMax(a: Vec3, b: Vec3): (r: Vec3)
    ensures Fits(r, a) && Fits(r, b)
    ensures r.x in {a.x, b.x} && r.y in {a.y, b.y} && r.z in {a.z, b.z}
    ensures forall c :: Fits(c, a) && Fits(c, b) ==> Fits(c, r)
  {
    Vec3(if a.x >= b.x then a.x else b.x,
         if a.y >= b.y then a.y else b.y,
         if a.z >= b.z then a.z else b.z)
  }

  lemma ComponentMinMaxLaws(a: Vec3, b: Vec3)
    ensures ComponentMin(a, b) == ComponentMin(b, a)
    ensures ComponentMax(a, b) == ComponentMax(b, a)
    ensures ComponentMin(a, a) == a && ComponentMax(a, a) == a
    ensures Fits(a, b) <==> ComponentMax(a, b) == a
    ensures Fits(a, b) <==> ComponentMin(a, b) == b
  {
  }

  /** `sort`: the three components in ascending order. */
  function Sort(v: Vec3): (r: Vec3)
    ensures r.x <= r.y <= r.z
    ensures multiset{r.x, r.y, r.z} == multiset{v.x, v.y, v.z}
  {
    var a := if v.x > v.z then Vec3(v.z, v.y, v.x) else v;
    var b := if a.x > a.y then Vec3(a.y, a.x, a.z) else a;
    if b.y > b.z then Vec3(b.x, b.z, b.y) else b
  }

  /** Sorting is monotone under `Fits`: the k-th smallest component of a
      larger vector is at least the k-th smallest of a smaller one. */
  lemma SortMonotone(a: Vec3, b: Vec3)
    requires Fits(a, b)
    ensures Fits(Sort(a), Sort(b))
  {
  }
}
