/**
  The order in which `try_place` (C++) and `TryPlace` (C#) visit candidate
  corners inside the current bounding box `[0, mx] x [0, my] x [0, mz]`:
  by diagonal shell `s = x + y + z`, then by `r = x + y`, then by `x`, so
  corners near the origin are tried first.
*/
module Scan {

  /** A candidate corner. */
  datatype Pos = Pos(x: nat, y: nat, z: nat)

  function Max0(a: int): nat {
    if a < 0 then 0 else a
  }

  function MinNat(a: nat, b: nat): nat {
    if a < b then a else b
  }

  /** The corner lies in the box `[0, mx] x [0, my] x [0, mz]`. */
  predicate InBox(p: Pos, mx: nat, my: nat, mz: nat) {
    p.x <= mx && p.y <= my && p.z <= mz
  }

  /** The scan visits `p` strictly before `q`: smaller shell, then smaller
      `x + y`, then smaller `x`. */
  predicate Earlier(p: Pos, q: Pos) {
    p.x + p.y + p.z < q.x + q.y + q.z ||
    (p.x + p.y + p.z == q.x + q.y + q.z &&
     (p.x + p.y < q.x + q.y || (p.x + p.y == q.x + q.y && p.x < q.x)))
  }

  /** Every element is visited strictly before every later one (so no corner
      is visited twice). */
  predicate StrictlyOrdered(ps: seq<Pos>) {
    forall a, b :: 0 <= a < b < |ps| ==> Earlier(ps[a], ps[b])
  }

  /** The innermost loop: `x` from `x` to `xHi` with `y = r - x`,
      `z = s - r`. */
  function Column(s: nat, r: nat, x: nat, xHi: nat): (ps: seq<Pos>)
    requires r <= s && xHi <= r
    ensures forall p :: p in ps <==> x <= p.x <= xHi && p.x + p.y == r && p.z == s - r
    ensures StrictlyOrdered(ps)
    decreases xHi + 1 - x
  {
    if x > xHi then []
    else [Pos(x, r - x, s - r)] + Column(s, r, x + 1, xHi)
  }

  /** The middle loop: `r` from `r` to `rHi`, each with the column
      `max(0, r - my) <= x <= min(r, mx)`. */
  function Rows(s: nat, r: nat, rHi: nat, mx: nat, my: nat): (ps: seq<Pos>)
    requires rHi <= s
    ensures forall p :: p in ps <==>
      r <= p.x + p.y <= rHi && p.x <= mx && p.y <= my && p.z == s - (p.x + p.y)
    ensures StrictlyOrdered(ps)
    ensures forall a :: 0 <= a < |ps| ==> ps[a].x + ps[a].y + ps[a].z == s && ps[a].x + ps[a].y >= r
    decreases rHi + 1 - r
  {
    if r > rHi then []
    else
      var col := Column(s, r, Max0(r - my), MinNat(r, mx));
      var rest := Rows(s, r + 1, rHi, mx, my);
      assert forall a :: 0 <= a < |col| ==> col[a] in col;
      ConcatOrdered(col, rest);
      col + rest
  }

  /** The outer loop: shells `s` to `mx + my + mz`, each with the rows
      `max(0, s - mz) <= r <= min(s, mx + my)`. */
  function Shells(s: nat, mx: nat, my: nat, mz: nat): (ps: seq<Pos>)
    ensures forall p :: p in ps <==> s <= p.x + p.y + p.z && InBox(p, mx, my, mz)
    ensures StrictlyOrdered(ps)
    ensures forall a :: 0 <= a < |ps| ==> ps[a].x + ps[a].y + ps[a].z >= s
    decreases mx + my + mz + 1 - s
  {
    if s > mx + my + mz then []
    else
      var rows := Rows(s, Max0(s - mz), MinNat(s, mx + my), mx, my);
      var rest := Shells(s + 1, mx, my, mz);
      ConcatOrdered(rows, rest);
      rows + rest
  }

  /** The corners `try_place` visits, in order. */
  function ScanOrder(mx: nat, my: nat, mz: nat): seq<Pos> {
    Shells(0, mx, my, mz)
  }

  /** The scan visits exactly the corners of the box, each once, in
      non-decreasing shell order. */
  lemma ScanOrderSpec(mx: nat, my: nat, mz: nat)
    ensures forall p :: p in ScanOrder(mx, my, mz) <==> InBox(p, mx, my, mz)
    ensures StrictlyOrdered(ScanOrder(mx, my, mz))
  {
  }

  /** Concatenating two ordered runs where every element of the first is
      earlier than every element of the second gives an ordered run. */
  lemma ConcatOrdered(a: seq<Pos>, b: seq<Pos>)
    requires StrictlyOrdered(a) && StrictlyOrdered(b)
    requires forall i, j :: 0 <= i < |a| && 0 <= j < |b| ==> Earlier(a[i], b[j])
    ensures StrictlyOrdered(a + b)
  {
  }
}
