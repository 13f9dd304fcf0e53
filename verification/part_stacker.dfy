/**
  The C# stacking loop (`PartStacker.Stacker_Sub` and `PartStacker.TryPlace`).
  Parts are ordered by ascending volume and taken from the last index, so
  the largest comes first. Each part counts down its `Remaining` instances.
  One scan may finish several parts: when the current part's count reaches
  zero the scan moves on to the next part at the next corner, and returns
  -1 once every part is finished. When a scan ends on the part it started
  with, the limits are grown.
*/
module PartStacker {
  import opened Grid
  import opened Occupancy
  import opened Scan
  import opened Parts
  import opened Growth
  import opened Stacker
  import opened Wrappers

  /** Parts `0..p` still have instances to place and parts above `p` are
      finished; `p == -1` means every part is finished. */
  predicate Pending(remaining: seq<int>, p: int) {
    -1 <= p < |remaining| &&
    (forall q :: 0 <= q <= p ==> remaining[q] >= 1) &&
    (forall q :: p < q < |remaining| ==> remaining[q] == 0)
  }

  function Sum(s: seq<int>): int {
    if s == [] then 0 else s[0] + Sum(s[1..])
  }

  /** Counting down one entry lowers the total by one. */
  lemma {:induction false} SumDecrement(s: seq<int>, i: nat)
    requires i < |s|
    ensures Sum(s[i := s[i] - 1]) == Sum(s) - 1
    decreases |s|
  {
    if i > 0 {
      assert s[i := s[i] - 1][1..] == s[1..][i - 1 := s[i] - 1];
      SumDecrement(s[1..], i - 1);
    }
  }

  lemma {:induction false} SumNonNegative(s: seq<int>)
    requires forall q :: 0 <= q < |s| ==> s[q] >= 0
    ensures Sum(s) >= 0
    decreases |s|
  {
    if s != [] {
      SumNonNegative(s[1..]);
    }
  }

  /** Every instance in `ps` is an instance of the part it names, one of
      `lo..hi`, within `lim`. */
  predicate InstancesOf(ps: seq<Placed>, parts: seq<Part>, lo: int, hi: int, lim: Dims) {
    forall n :: 0 <= n < |ps| ==>
      lo <= ps[n].part <= hi && ps[n].part < |parts| &&
      InstanceOf(ps[n], parts[ps[n].part], ps[n].part, lim)
  }

  /** Instances come in order of non-increasing part index: since the parts
      are indexed by ascending volume, larger parts come first. */
  predicate NonIncreasing(ps: seq<Placed>) {
    forall a, b :: 0 <= a < b < |ps| ==> ps[a].part >= ps[b].part
  }

  /** Joining two runs where every part of the first is at least every part
      of the second keeps the order. */
  lemma NonIncreasingAppend(ps: seq<Placed>, qs: seq<Placed>, bound: int)
    requires NonIncreasing(ps) && NonIncreasing(qs)
    requires forall a :: 0 <= a < |ps| ==> ps[a].part >= bound
    requires forall b :: 0 <= b < |qs| ==> qs[b].part <= bound
    ensures NonIncreasing(ps + qs)
  {
    var r := ps + qs;
    forall a, b | 0 <= a < b < |r|
      ensures r[a].part >= r[b].part
    {
      if b < |ps| {
        assert r[a] == ps[a] && r[b] == ps[b];
      } else if a >= |ps| {
        assert r[a] == qs[a - |ps|] && r[b] == qs[b - |ps|];
      } else {
        assert r[a] == ps[a] && r[b] == qs[b - |ps|];
      }
    }
  }

  /** The counts went down by exactly the instances committed. */
  predicate Accounted(remaining0: seq<int>, remaining: seq<int>, added: seq<Placed>) {
    |remaining| == |remaining0| &&
    forall q :: 0 <= q < |remaining| ==> remaining0[q] - remaining[q] == Count(added, q)
  }

  lemma CountOne(pl: Placed, q: nat)
    ensures Count([pl], q) == if pl.part == q then 1 else 0
  {
    assert [pl][1..] == [];
  }

  /** Committing an instance of part `p` and counting `p` down keeps the
      counts accounted for. */
  lemma AccountedCommit(remaining0: seq<int>, remaining: seq<int>, added: seq<Placed>, pl: Placed, p: nat)
    requires Accounted(remaining0, remaining, added) && p < |remaining| && pl.part == p
    ensures Accounted(remaining0, remaining[p := remaining[p] - 1], added + [pl])
  {
    forall q | 0 <= q < |remaining|
      ensures Count(added + [pl], q) == Count(added, q) + (if q == p then 1 else 0)
    {
      CountAppend(added, [pl], q);
      CountOne(pl, q);
    }
  }

  /** The state of the scan before position `n`, started on part `p0`. */
  ghost predicate ScanInv(space: Grid3<bool>, sd: Dims, parts: seq<Part>, lim: Dims, placed0: seq<Placed>,
                          remaining0: seq<int>, p0: nat, order: seq<Pos>, n: nat,
                          p: int, remaining: seq<int>, cur: Grid3<bool>, added: seq<Placed>)
    requires Shaped(space, sd) && p0 < |parts| && ValidPart(parts[p0])
  {
    n <= |order| && Holds(cur, sd, placed0 + added) &&
    p <= p0 && Pending(remaining, p) && Accounted(remaining0, remaining, added) &&
    InstancesOf(added, parts, p, p0, lim) && StrictlyOrdered(Corners(added)) && NonIncreasing(added) &&
    (n < |order| ==> forall a :: 0 <= a < |added| ==> Earlier(Corner(added[a]), order[n])) &&
    (added == [] ==> cur == space && p == p0 && remaining == remaining0 &&
                     forall m :: 0 <= m < n ==> Blocked(space, sd, parts[p0], order[m], lim)) &&
    (added != [] ==> AnyFeasible(space, sd, parts[p0], lim))
  }

  /** `TryPlace(p, ...)`: one scan of the corners within `lim`. At each corner
      the current part's lowest feasible orientation is committed and its
      `Remaining` counted down; a part counted down to zero hands over to the
      next lower index, and the scan returns -1 when there is none. */
  method TryPlace(space: Grid3<bool>, sd: Dims, parts: seq<Part>, remaining: seq<int>, p: int, lim: Dims,
                  ghost placed0: seq<Placed>)
    returns (p': int, remaining': seq<int>, space': Grid3<bool>, added: seq<Placed>)
    requires forall q :: 0 <= q < |parts| ==> ValidPart(parts[q])
    requires 0 <= p && |remaining| == |parts| && Pending(remaining, p) && Holds(space, sd, placed0)
    ensures Holds(space', sd, placed0 + added)
    ensures -1 <= p' <= p && Pending(remaining', p')
    ensures Accounted(remaining, remaining', added)
    ensures InstancesOf(added, parts, p', p, lim)
    ensures StrictlyOrdered(Corners(added))
    ensures NonIncreasing(added)
    ensures added == [] <==> !AnyFeasible(space, sd, parts[p], lim)
    ensures added == [] ==> p' == p && remaining' == remaining && space' == space
  {
    var order := ScanOrder(lim.x, lim.y, lim.z);
    ScanOrderSpec(lim.x, lim.y, lim.z);
    p', remaining', space', added := p, remaining, space, [];
    assert placed0 + added == placed0;
    var n := 0;
    while n < |order|
      invariant 0 <= n <= |order| && p' >= 0
      invariant ScanInv(space, sd, parts, lim, placed0, remaining, p, order, n, p', remaining', space', added)
    {
      p', remaining', space', added := ScanStep(space, sd, parts, lim, placed0, remaining, p, order, n, p', remaining', space', added);
      if p' < 0 {
        return;
      }
      n := n + 1;
    }
    if added == [] {
      ScanBlocked(space, sd, parts[p], lim);
    }
  }

  /** The body of the scan at position `n`. */
  method ScanStep(space: Grid3<bool>, sd: Dims, parts: seq<Part>, lim: Dims, ghost placed0: seq<Placed>,
                  ghost remaining0: seq<int>, ghost p0: nat, order: seq<Pos>, n: nat,
                  p: int, remaining: seq<int>, cur: Grid3<bool>, added: seq<Placed>)
    returns (p': int, remaining': seq<int>, cur': Grid3<bool>, added': seq<Placed>)
    requires forall q :: 0 <= q < |parts| ==> ValidPart(parts[q])
    requires Shaped(space, sd) && p0 < |parts| && 0 <= p && StrictlyOrdered(order) && n < |order|
    requires ScanInv(space, sd, parts, lim, placed0, remaining0, p0, order, n, p, remaining, cur, added)
    ensures ScanInv(space, sd, parts, lim, placed0, remaining0, p0, order, n + 1, p', remaining', cur', added')
  {
    var pos := order[n];
    var committed, next, pl := Visit(cur, sd, parts[p], p, pos, lim, placed0 + added);
    if committed {
      assert placed0 + added + [pl] == placed0 + (added + [pl]);
      CommitOrdered(order, n, added, pl);
      AccountedCommit(remaining0, remaining, added, pl, p);
      NonIncreasingAppend(added, [pl], p);
      remaining' := remaining[p := remaining[p] - 1];
      p' := if remaining'[p] == 0 then p - 1 else p;
      cur', added' := next, added + [pl];
    } else {
      if n + 1 < |order| {
        assert Earlier(order[n], order[n + 1]);
      }
      p', remaining', cur', added' := p, remaining, cur, added;
    }
  }

  /** A finished C# stacking: `order` is the ascending order the parts are
      indexed by. */
  predicate Complete(parts: seq<Part>, sd: Dims, lim: Dims, st: Stacking) {
    multiset(st.order) == multiset(parts) && VolumeAscending(st.order) &&
    Shaped(st.space, sd) && InstancesOfOrder(st) &&
    lim.x <= st.lim.x && lim.y <= st.lim.y && lim.z <= st.lim.z &&
    NonIncreasing(st.placements) &&
    forall q :: 0 <= q < |st.order| ==> Count(st.placements, q) == st.order[q].quantity
  }

  /** The state between scans: parts above `p` are finished, the grid holds
      the committed instances, each count is its quantity less the instances
      committed, and the limits only grew. */
  ghost predicate StackInv(order: seq<Part>, sd: Dims, lim: Dims, remaining: seq<int>, p: int,
                           space: Grid3<bool>, placements: seq<Placed>, cur: Dims) {
    |remaining| == |order| && Pending(remaining, p) && Sum(remaining) >= 0 &&
    Holds(space, sd, placements) &&
    lim.x <= cur.x && lim.y <= cur.y && lim.z <= cur.z &&
    (forall q :: 0 <= q < |order| ==> order[q].quantity - remaining[q] == Count(placements, q)) &&
    InstancesOf(placements, order, 0, |order| - 1, cur) &&
    NonIncreasing(placements) && (forall a :: 0 <= a < |placements| ==> placements[a].part >= p)
  }

  /** `Stacker_Sub` after the parts are voxelised: order the parts by
      ascending volume, start at the last index with every `Remaining` equal
      to its quantity, scan, and grow the limits whenever a scan ends on the
      part it started with; `None` is `Result = null` when the growth search
      finds nothing. */
  method Stack(parts: seq<Part>, sd: Dims, lim: Dims)
    returns (res: Option<Stacking>, ghost failed: Part, ghost failSpace: Grid3<bool>, ghost failLim: Dims)
    requires forall n :: 0 <= n < |parts| ==> ValidPart(parts[n]) && parts[n].quantity >= 1
    ensures res.Some? ==> Complete(parts, sd, lim, res.value) && Holds(res.value.space, sd, res.value.placements)
    ensures res.None? ==>
      failed in parts && Shaped(failSpace, sd) &&
      lim.x <= failLim.x && lim.y <= failLim.y && lim.z <= failLim.z &&
      (VolumeBound(Env(failSpace, sd, failed, failLim)) ==> !AnyFeasible(failSpace, sd, failed, sd))
  {
    var order := OrderByVolume(parts);
    forall n | 0 <= n < |order|
      ensures ValidPart(order[n]) && order[n].quantity >= 1
    {
      assert order[n] in multiset(parts);
    }
    var remaining := seq(|order|, q requires 0 <= q < |order| => order[q].quantity as int);
    var p := |order| - 1;
    var space := Filled(sd, false);
    var cur := lim;
    var placements: seq<Placed> := [];
    ghost var ready := false;
    StartInv(order, sd, lim, remaining);
    while p >= 0
      invariant StackInv(order, sd, lim, remaining, p, space, placements, cur)
      invariant ready ==> p >= 0 && AnyFeasible(space, sd, order[p], cur)
      decreases Sum(remaining), if ready then 0 else 1
    {
      var ok, p', remaining', space', placements', cur', ready' := Round(order, sd, lim, remaining, p, space, placements, cur, ready);
      if !ok {
        assert order[p'] in multiset(parts);
        return None, order[p'], space', cur';
      }
      p, remaining, space, placements, cur, ready := p', remaining', space', placements', cur', ready';
    }
    res := Some(Stacking(order, placements, space, cur));
    failed, failSpace, failLim := Part(0, 0, [], [], Dims(0, 0, 0)), space, cur;
    Finished(parts, order, sd, lim, remaining, space, placements, cur);
  }

  /** Before the first scan: every count is its quantity, nothing is placed,
      and the grid is empty. */
  lemma StartInv(order: seq<Part>, sd: Dims, lim: Dims, remaining: seq<int>)
    requires forall n :: 0 <= n < |order| ==> order[n].quantity >= 1
    requires |remaining| == |order| && forall q :: 0 <= q < |order| ==> remaining[q] == order[q].quantity
    ensures StackInv(order, sd, lim, remaining, |order| - 1, Filled(sd, false), [], lim)
  {
    EmptyExact(sd);
    SumNonNegative(remaining);
  }

  /** When every count is zero, every part has its quantity placed. */
  lemma Finished(parts: seq<Part>, order: seq<Part>, sd: Dims, lim: Dims, remaining: seq<int>, space: Grid3<bool>,
                 placements: seq<Placed>, cur: Dims)
    requires multiset(order) == multiset(parts) && VolumeAscending(order)
    requires StackInv(order, sd, lim, remaining, -1, space, placements, cur)
    ensures Complete(parts, sd, lim, Stacking(order, placements, space, cur))
  {
  }

  /** One pass of the `while (pIndex >= 0)` loop: a scan, then growth if the
      scan ended on the part it started with. Each pass either places
      something or, after a scan that placed nothing, grows the limits so
      that the next scan places something. */
  method Round(order: seq<Part>, sd: Dims, lim: Dims, remaining: seq<int>, p: int, space: Grid3<bool>,
               placements: seq<Placed>, cur: Dims, ghost ready: bool)
    returns (ok: bool, p': int, remaining': seq<int>, space': Grid3<bool>, placements': seq<Placed>, cur': Dims,
             ghost ready': bool)
    requires forall n :: 0 <= n < |order| ==> ValidPart(order[n])
    requires p >= 0 && StackInv(order, sd, lim, remaining, p, space, placements, cur)
    requires ready ==> AnyFeasible(space, sd, order[p], cur)
    ensures ok ==> StackInv(order, sd, lim, remaining', p', space', placements', cur')
    ensures ok ==> (ready' ==> p' >= 0 && AnyFeasible(space', sd, order[p'], cur'))
    ensures ok ==> Sum(remaining') < Sum(remaining) || (Sum(remaining') == Sum(remaining) && ready' && !ready)
    ensures !ok ==>
      0 <= p' < |order| && StackInv(order, sd, lim, remaining', p', space', placements', cur') &&
      (VolumeBound(Env(space', sd, order[p'], cur')) ==> !AnyFeasible(space', sd, order[p'], sd))
  {
    var added;
    p', remaining', space', added := TryPlace(space, sd, order, remaining, p, cur, placements);
    AfterScan(order, sd, lim, remaining, p, space, placements, cur, p', remaining', space', added);
    placements', cur', ready', ok := placements + added, cur, false, true;
    if p' >= 0 && p' == p {
      var grown := Enlarge(Env(space', sd, order[p'], cur'));
      if grown.None? {
        ok := false;
        return;
      }
      InvWider(order, sd, lim, remaining', p', space', placements', cur', grown.value);
      cur' := grown.value;
      ready' := true;
    }
  }

  /** A scan keeps the state between scans, and lowers the sum of the counts
      by the instances it committed. */
  lemma AfterScan(order: seq<Part>, sd: Dims, lim: Dims, remaining: seq<int>, p: int, space: Grid3<bool>,
                  placements: seq<Placed>, cur: Dims, p': int, remaining': seq<int>, space': Grid3<bool>, added: seq<Placed>)
    requires p >= 0 && StackInv(order, sd, lim, remaining, p, space, placements, cur)
    requires Holds(space', sd, placements + added) && -1 <= p' <= p && Pending(remaining', p')
    requires Accounted(remaining, remaining', added) && InstancesOf(added, order, p', p, cur)
    requires NonIncreasing(added)
    ensures StackInv(order, sd, lim, remaining', p', space', placements + added, cur)
    ensures Sum(remaining') == Sum(remaining) - |added|
  {
    Progress(order, placements, remaining, remaining', added);
    NonIncreasingAppend(placements, added, p);
    var all := placements + added;
    forall a | 0 <= a < |all|
      ensures all[a].part >= p'
    {
      if a >= |placements| {
        assert all[a] == added[a - |placements|];
      }
    }
  }

  /** Growing the limits keeps the state between scans. */
  lemma InvWider(order: seq<Part>, sd: Dims, lim: Dims, remaining: seq<int>, p: int, space: Grid3<bool>,
                 placements: seq<Placed>, cur: Dims, grown: Dims)
    requires StackInv(order, sd, lim, remaining, p, space, placements, cur)
    requires cur.x <= grown.x && cur.y <= grown.y && cur.z <= grown.z
    ensures StackInv(order, sd, lim, remaining, p, space, placements, grown)
  {
  }

  /** What one scan does to the totals: the counts stay accounted for, and
      the sum of `Remaining` drops by the instances committed. */
  lemma Progress(order: seq<Part>, placements: seq<Placed>, remaining: seq<int>, remaining': seq<int>, added: seq<Placed>)
    requires |remaining| == |order| && Accounted(remaining, remaining', added)
    requires forall q :: 0 <= q < |order| ==> order[q].quantity - remaining[q] == Count(placements, q)
    requires forall q :: 0 <= q < |remaining'| ==> remaining'[q] >= 0
    requires forall n :: 0 <= n < |added| ==> added[n].part < |order|
    ensures forall q :: 0 <= q < |order| ==> order[q].quantity - remaining'[q] == Count(placements + added, q)
    ensures Sum(remaining') == Sum(remaining) - |added| && Sum(remaining') >= 0
  {
    forall q | 0 <= q < |order|
      ensures order[q].quantity - remaining'[q] == Count(placements + added, q)
    {
      CountAppend(placements, added, q);
    }
    SumNonNegative(remaining');
    SumAccounted(remaining, remaining', added);
  }

  /** The sum of the counts drops by the number of instances, whichever parts
      they belong to. */
  lemma {:induction false} SumAccounted(remaining0: seq<int>, remaining: seq<int>, added: seq<Placed>)
    requires Accounted(remaining0, remaining, added)
    requires forall n :: 0 <= n < |added| ==> added[n].part < |remaining0|
    ensures Sum(remaining) == Sum(remaining0) - |added|
    decreases |added|
  {
    if added == [] {
      assert remaining == remaining0;
    } else {
      var last := added[|added| - 1];
      var init := added[..|added| - 1];
      assert added == init + [last];
      forall q | 0 <= q < |remaining|
        ensures Count(added, q) == Count(init, q) + (if q == last.part then 1 else 0)
      {
        CountAppend(init, [last], q);
        CountOne(last, q);
      }
      var mid := remaining[last.part := remaining[last.part] + 1];
      assert Accounted(remaining0, mid, init);
      SumAccounted(remaining0, mid, init);
      SumDecrement(mid, last.part);
      assert mid[last.part := mid[last.part] - 1] == remaining;
    }
  }
}
