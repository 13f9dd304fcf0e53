/**
  The box-growth search both stackers run when no instance of the current
  part can be placed inside the current limits `(max_x, max_y, max_z)`:
  the corners of the whole build space are scanned shell by shell, and among
  the feasible (corner, orientation) pairs it reaches, the one whose enlarged
  bounding box
  `max(max_x, x + box.x) * max(max_y, y + box.y) * max(max_z, z + box.z)`
  is smallest is kept (the first one on ties). Two prunes compare a lower
  bound with the best volume found so far. The column prune skips a single
  corner. The row prune `break`s out of the shell, which also skips the later
  rows of that shell. Their `z` is smaller, so their bound can be lower and
  they can hold a cheaper placement. The result is therefore the cheapest
  among the corners reached, not necessarily the cheapest in the space.

  The loop bounds come in three versions:
  - `CppAsWritten`: the C++ bounds, which mix `int` with `std::size_t`; a
    negative lower bound wraps to a huge unsigned value, so no row of a shell
    `s < e2 + mbz` and no column of a row `r < e1 + mby` is examined, and the
    column bound uses the smallest z extent where the x extent is meant;
  - `CSharpAsWritten`: the C# bounds, signed, but with the same z-for-x
    column bound;
  - `Corrected`: the bounds the scan evidently intends, covering every
    corner at which some orientation can fit.
*/
module Growth {
  import opened Grid
  import opened Occupancy
  import opened Scan
  import opened Parts
  import opened Wrappers

  /** `std::numeric_limits<int>::max()` / `int.MaxValue`. */
  const IntMax: int := 0x7fff_ffff

  /** Conversion of a `std::size_t` to `int`: the low 32 bits read as two's
      complement. */
  function AsInt32(u: int): (r: int)
    ensures -0x8000_0000 <= r < 0x8000_0000
  {
    var w := u % 0x1_0000_0000;
    if w >= 0x8000_0000 then w - 0x1_0000_0000 else w
  }

  /** A value in `int` range converted to `size_t` and back is unchanged. */
  lemma AsInt32AsSizeT(v: int)
    requires -0x8000_0000 <= v < 0x8000_0000
    ensures AsInt32(AsSizeT(v)) == v
  {
    if v < 0 {
      assert AsSizeT(v) == v + SizeTRange;
      assert (v + SizeTRange) % 0x1_0000_0000 == v + 0x1_0000_0000;
    }
  }

  /** A `size_t` comparison `v <= u` with `v` an `int` converted to
      `size_t` holds only for `0 <= v <= u`: negative values become huge. */
  lemma SizeTLe(v: int, u: int)
    requires -0x8000_0000 <= v < 0x1_0000_0000 && 0 <= u < 0x8000_0000
    ensures AsSizeT(v) <= u ==> 0 <= v <= u
  {
    if v < 0 {
      assert AsSizeT(v) == v + SizeTRange;
    }
  }

  datatype Mode = CppAsWritten | CSharpAsWritten | Corrected

  /** The state the search reads: the space and its extents, the part, and
      the current limits `(max_x, max_y, max_z)`. */
  datatype Env = Env(space: Grid3<bool>, sd: Dims, part: Part, lim: Dims)

  predicate ValidEnv(env: Env) {
    Shaped(env.space, env.sd) && ValidPart(env.part)
  }

  /** `min_box_x/y/z`: the smallest extent of any orientation's box along
      each axis, from `INT_MAX`. */
  function MinBox(boxes: seq<Dims>): (mb: Dims)
    ensures mb.x <= IntMax && mb.y <= IntMax && mb.z <= IntMax
    ensures forall o :: 0 <= o < |boxes| ==> mb.x <= boxes[o].x && mb.y <= boxes[o].y && mb.z <= boxes[o].z
  {
    if boxes == [] then Dims(IntMax, IntMax, IntMax)
    else
      var rest := MinBox(boxes[1..]);
      assert forall o :: 1 <= o < |boxes| ==> boxes[o] == boxes[1..][o - 1];
      Dims(MinNat(boxes[0].x, rest.x), MinNat(boxes[0].y, rest.y), MinNat(boxes[0].z, rest.z))
  }

  function Mb(env: Env): Dims {
    MinBox(env.part.boxes)
  }

  /** Sum of the space extents minus the sum of the smallest box extents:
      the bound of the shell loop. */
  function ShellSpan(env: Env): int {
    env.sd.x + env.sd.y + env.sd.z - Mb(env).x - Mb(env).y - Mb(env).z
  }

  /** The C++ loops run on `int` counters; the model takes the extents to be
      small enough for them (the shell counter would otherwise overflow). */
  predicate ModeOk(mode: Mode, env: Env) {
    mode == CppAsWritten ==> 0 <= ShellSpan(env) && env.sd.x + env.sd.y + env.sd.z < 0x8000_0000
  }

  /** The shell loop runs while `s` is below this. */
  function ShellEnd(mode: Mode, env: Env): int {
    match mode
    case CppAsWritten => AsSizeT(ShellSpan(env))
    case _ => ShellSpan(env)
  }

  /** First `r` of shell `s`. */
  function RowStart(mode: Mode, env: Env, s: int): int {
    match mode
    case CppAsWritten => AsInt32(AsSizeT(s - env.sd.z - Mb(env).z))
    case CSharpAsWritten => Max(0, s - env.sd.z - Mb(env).z)
    case Corrected => Max(0, s - (env.sd.z - Mb(env).z))
  }

  /** The row loop condition. */
  predicate RowGo(mode: Mode, env: Env, s: int, r: int) {
    match mode
    case CppAsWritten =>
      AsSizeT(r) <= Min(AsSizeT(s), AsSizeT(env.sd.x + env.sd.y - Mb(env).x - Mb(env).y))
    case _ => r <= Min(s, env.sd.x + env.sd.y - Mb(env).x - Mb(env).y)
  }

  /** First `x` of row `r`. */
  function ColStart(mode: Mode, env: Env, r: int): int {
    match mode
    case CppAsWritten => AsInt32(AsSizeT(r - env.sd.y - Mb(env).y))
    case CSharpAsWritten => Max(0, r - env.sd.y - Mb(env).y)
    case Corrected => Max(0, r - (env.sd.y - Mb(env).y))
  }

  /** The column loop condition. */
  predicate ColGo(mode: Mode, env: Env, r: int, x: int) {
    match mode
    case CppAsWritten => AsSizeT(x) <= Min(AsSizeT(r), AsSizeT(env.sd.x - Mb(env).z))
    case CSharpAsWritten => x <= Min(r, env.sd.x - Mb(env).z)
    case Corrected => x <= Min(r, env.sd.x - Mb(env).x)
  }

  /** The range of a loop counter: the C++ loops run on `int`, with a
      start converted from `size_t`; the others start at zero or above. */
  predicate CounterOk(mode: Mode, s: nat, v: int) {
    if mode == CppAsWritten then s < 0x8000_0000 && -0x8000_0000 <= v <= 0x8000_0000 else v >= 0
  }

  /** In the C++ loop the shell bound converts back to the signed span. */
  lemma ShellEndCpp(mode: Mode, env: Env)
    requires ModeOk(mode, env) && mode == CppAsWritten
    ensures ShellEnd(mode, env) == ShellSpan(env) < 0x8000_0000
  {
  }

  /** A column the loop condition admits lies in `0 <= x <= r`. */
  lemma ColBounds(mode: Mode, env: Env, s: nat, r: nat, x: int)
    requires r <= s && CounterOk(mode, s, x) && ColGo(mode, env, r, x)
    ensures 0 <= x <= r
  {
    if mode == CppAsWritten {
      SizeTLe(x, r);
      assert AsSizeT(r) == r;
    }
  }

  /** A row the loop condition admits lies in `0 <= r <= s`. */
  lemma RowBounds(mode: Mode, env: Env, s: nat, r: int)
    requires CounterOk(mode, s, r) && RowGo(mode, env, s, r)
    ensures 0 <= r <= s
  {
    if mode == CppAsWritten {
      SizeTLe(r, s);
      assert AsSizeT(s) == s;
    }
  }

  /** The corner and orientation behind the best volume found so far. */
  datatype Choice = Choice(pos: Pos, orient: nat)

  /** `best` and the choice that set it (the source keeps only the new
      corner `new_x/y/z = x + box`). */
  datatype Best = Best(volume: int, choice: Option<Choice>)

  const NoneFound := Best(IntMax, None)

  /** The volume of the limits enlarged to take a box `b` at `p`. */
  function NewBox(env: Env, p: Pos, b: Dims): int {
    Max(env.lim.x, p.x + b.x) * Max(env.lim.y, p.y + b.y) * Max(env.lim.z, p.z + b.z)
  }

  /** The enlarged corner `(new_x, new_y, new_z)` of a choice. */
  function NewCorner(env: Env, c: Choice): Pos
    requires c.orient < |env.part.boxes|
  {
    var b := env.part.boxes[c.orient];
    Pos(c.pos.x + b.x, c.pos.y + b.y, c.pos.z + b.z)
  }

  /** `best` is `INT_MAX` exactly when nothing was chosen, and a choice is a
      feasible placement in the whole space whose enlarged volume is
      `best`. */
  predicate Sound(env: Env, b: Best)
    requires ValidEnv(env)
  {
    (b.choice.Some? <==> b.volume < IntMax) && b.volume <= IntMax &&
    (b.choice.Some? ==>
      Feasible(env.space, env.sd, env.part, b.choice.value.pos, env.sd, b.choice.value.orient) &&
      b.volume == NewBox(env, b.choice.value.pos, env.part.boxes[b.choice.value.orient]))
  }

  /** The orientation loop at one corner: every orientation still possible
      is tried, and a strictly smaller enlarged volume replaces `best`. */
  function ConsiderOrients(env: Env, possible: Orients, p: Pos, i: nat, b: Best): (r: Best)
    requires ValidEnv(env) && i <= |env.part.boxes| && Sound(env, b)
    requires forall o :: o in possible ==> Feasible(env.space, env.sd, env.part, p, env.sd, o)
    ensures Sound(env, r) && r.volume <= b.volume
    ensures forall o :: i <= o < |env.part.boxes| && o in possible ==> r.volume <= NewBox(env, p, env.part.boxes[o])
    decreases |env.part.boxes| - i
  {
    if i == |env.part.boxes| then b
    else
      var nb := NewBox(env, p, env.part.boxes[i]);
      var b' := if i in possible && nb < b.volume then Best(nb, Some(Choice(p, i))) else b;
      ConsiderOrients(env, possible, p, i + 1, b')
  }

  /** `max(max_x, x + mbx) * max(max_y, y + mby) * max(max_z, z + mbz)`, the
      smallest enlarged volume any orientation could give at `p`. */
  function CellLowerBound(env: Env, p: Pos): int {
    Max(env.lim.x, p.x + Mb(env).x) * Max(env.lim.y, p.y + Mb(env).y) * Max(env.lim.z, p.z + Mb(env).z)
  }

  /** `max(z + mbz, max_z) * max_y * max_x`, the bound the row `break`
      tests. */
  function RowLowerBound(env: Env, z: int): int {
    Max(env.lim.z, z + Mb(env).z) * env.lim.y * env.lim.x
  }

  /** The orientations tried at `p`: those whose box fits in the space and
      which `can_place` leaves. */
  function Candidates(env: Env, p: Pos): (r: Orients)
    requires ValidEnv(env)
    ensures forall o :: o in r <==> Feasible(env.space, env.sd, env.part, p, env.sd, o)
  {
    PlaceableFeasible(env.space, env.sd, env.part, p, env.sd);
    Placeable(env.space, env.sd, FitOrients(env.part.boxes, p, env.sd), env.part.voxels, env.part.vd, p.x, p.y, p.z)
  }

  /** No orientation of the part can be placed at a corner of row `r` of
      shell `s` with `x >= xLo`. */
  ghost predicate NoneInRow(env: Env, s: nat, r: int, xLo: int)
    requires ValidEnv(env)
  {
    forall q: Pos, o: nat | q.x + q.y + q.z == s && q.x + q.y == r && q.x >= xLo ::
      !Feasible(env.space, env.sd, env.part, q, env.sd, o)
  }

  /** No orientation of the part can be placed at a corner of shell `s` with
      `x + y >= rLo`. */
  ghost predicate NoneInShell(env: Env, s: nat, rLo: int)
    requires ValidEnv(env)
  {
    forall q: Pos, o: nat | q.x + q.y + q.z == s && q.x + q.y >= rLo ::
      !Feasible(env.space, env.sd, env.part, q, env.sd, o)
  }

  /** No orientation of the part can be placed at a corner of any shell from
      `s` on. */
  ghost predicate NoneFrom(env: Env, s: nat)
    requires ValidEnv(env)
  {
    forall q: Pos, o: nat | q.x + q.y + q.z >= s ::
      !Feasible(env.space, env.sd, env.part, q, env.sd, o)
  }

  /** The products stay below `INT_MAX` for every corner of the space, so
      neither `int` overflows nor a prune can fire while `best` is
      `INT_MAX`. */
  predicate VolumeBound(env: Env) {
    Max(env.sd.x, env.lim.x) * Max(env.sd.y, env.lim.y) * Max(env.sd.z, env.lim.z) < IntMax
  }

  lemma MulMono3(a: int, b: int, c: int, a': int, b': int, c': int)
    requires 0 <= a <= a' && 0 <= b <= b' && 0 <= c <= c'
    ensures a * b * c <= a' * b' * c'
  {
    assert a * b <= a' * b by { MulMono(a, a', b); }
    assert a' * b <= a' * b' by { MulMono(b, b', a'); }
    MulMono(a * b, a' * b', c);
    MulMono(c, c', a' * b');
  }

  lemma MulSwap3(a: int, b: int, c: int)
    ensures a * b * c == c * b * a
  {
  }

  lemma MulMono(a: int, a': int, b: int)
    requires a <= a' && 0 <= b
    ensures a * b <= a' * b && b * a <= b * a'
  {
  }

  /** Under the volume bound a box that fits in the space enlarges the limits
      to less than `INT_MAX`, and so do the prune bounds of corners that fit
      the smallest box. */
  lemma BelowIntMax(env: Env, p: Pos, b: Dims)
    requires VolumeBound(env)
    requires p.x + b.x <= env.sd.x && p.y + b.y <= env.sd.y && p.z + b.z <= env.sd.z
    ensures NewBox(env, p, b) < IntMax
  {
    MulMono3(Max(env.lim.x, p.x + b.x), Max(env.lim.y, p.y + b.y), Max(env.lim.z, p.z + b.z),
             Max(env.sd.x, env.lim.x), Max(env.sd.y, env.lim.y), Max(env.sd.z, env.lim.z));
  }

  /** The column loop of row `r` in shell `s`, from `x` on; a corner whose
      lower bound exceeds `best` is skipped (`continue`). */
  function Cols(mode: Mode, env: Env, s: nat, r: nat, x: int, b: Best): (res: Best)
    requires ValidEnv(env) && Sound(env, b)
    requires r <= s && CounterOk(mode, s, x)
    ensures Sound(env, res) && res.volume <= b.volume
    decreases r + 1 - x
  {
    if !ColGo(mode, env, r, x) then b
    else
      ColBounds(mode, env, s, r, x);
      var p := Pos(x, r - x, s - r);
      var b' := if CellLowerBound(env, p) > b.volume then b
        else ConsiderOrients(env, Candidates(env, p), p, 0, b);
      Cols(mode, env, s, r, x + 1, b')
  }

  /** The row loop of shell `s`, from `r` on; a row whose lower bound exceeds
      `best` ends the shell (`break`). */
  function Rows(mode: Mode, env: Env, s: nat, r: int, b: Best): (res: Best)
    requires ValidEnv(env) && Sound(env, b)
    requires CounterOk(mode, s, r)
    ensures Sound(env, res) && res.volume <= b.volume
    decreases s + 1 - r
  {
    if !RowGo(mode, env, s, r) then b
    else
      RowBounds(mode, env, s, r);
      if RowLowerBound(env, s - r) > b.volume then b
      else
        var c := Cols(mode, env, s, r, ColStart(mode, env, r), b);
        Rows(mode, env, s, r + 1, c)
  }

  /** The shell loop, from shell `s` on. */
  function Shells(mode: Mode, env: Env, s: nat, b: Best): (res: Best)
    requires ValidEnv(env) && ModeOk(mode, env) && Sound(env, b)
    ensures Sound(env, res) && res.volume <= b.volume
    decreases ShellEnd(mode, env) - s
  {
    if s >= ShellEnd(mode, env) then b
    else
      assert CounterOk(mode, s, RowStart(mode, env, s)) by {
        if mode == CppAsWritten {
          ShellEndCpp(mode, env);
        }
      }
      Shells(mode, env, s + 1, Rows(mode, env, s, RowStart(mode, env, s), b))
  }

  /** The growth search: the feasible placement of the part anywhere in the
      space with the smallest enlarged volume among the corners the loops
      reach, or `INT_MAX` if none was found. */
  function Search(mode: Mode, env: Env): (b: Best)
    requires ValidEnv(env) && ModeOk(mode, env)
    ensures b.volume <= IntMax
    ensures b.volume < IntMax ==>
      b.choice.Some? && b.choice.value.orient < |env.part.boxes| &&
      Feasible(env.space, env.sd, env.part, b.choice.value.pos, env.sd, b.choice.value.orient) &&
      b.volume == NewBox(env, b.choice.value.pos, env.part.boxes[b.choice.value.orient])
  {
    Shells(mode, env, 0, NoneFound)
  }

  /** One step of the corrected column loop while nothing has been found:
      the corner is not pruned, and the orientation loop finds every feasible
      orientation there. */
  lemma ColsStep(env: Env, s: nat, r: nat, x: nat, b: Best) returns (b': Best)
    requires ValidEnv(env) && VolumeBound(env) && Sound(env, b) && b.volume == IntMax
    requires r <= s && ColGo(Corrected, env, r, x)
    requires s - r <= env.sd.z - Mb(env).z && x >= r - (env.sd.y - Mb(env).y)
    ensures Sound(env, b') && Cols(Corrected, env, s, r, x, b) == Cols(Corrected, env, s, r, x + 1, b')
    ensures b'.volume == IntMax ==> NoneAt(env, Pos(x, r - x, s - r))
  {
    var p := Pos(x, r - x, s - r);
    BelowIntMax(env, p, Mb(env));
    assert CellLowerBound(env, p) <= b.volume;
    b' := ConsiderOrients(env, Candidates(env, p), p, 0, b);
    ConsiderFinds(env, p, b);
  }

  /** While nothing has been found, the orientation loop at `p` finds
      something whenever some orientation is feasible there. */
  lemma ConsiderFinds(env: Env, p: Pos, b: Best)
    requires ValidEnv(env) && VolumeBound(env) && Sound(env, b)
    ensures ConsiderOrients(env, Candidates(env, p), p, 0, b).volume == IntMax ==> NoneAt(env, p)
  {
    var b' := ConsiderOrients(env, Candidates(env, p), p, 0, b);
    forall o: nat | Feasible(env.space, env.sd, env.part, p, env.sd, o)
      ensures b'.volume < IntMax
    {
      BelowIntMax(env, p, env.part.boxes[o]);
    }
  }

  /** No orientation of the part can be placed at `p`. */
  ghost predicate NoneAt(env: Env, p: Pos)
    requires ValidEnv(env)
  {
    forall o: nat :: !Feasible(env.space, env.sd, env.part, p, env.sd, o)
  }

  /** Past the corrected column bound no corner of the row can hold any
      orientation. */
  lemma PastColEnd(env: Env, s: nat, r: nat, x: int)
    requires ValidEnv(env) && !ColGo(Corrected, env, r, x)
    ensures NoneInRow(env, s, r, x)
  {
    forall q: Pos, o: nat | q.x + q.y + q.z == s && q.x + q.y == r && q.x >= x
      ensures !Feasible(env.space, env.sd, env.part, q, env.sd, o)
    {
      if o < |env.part.boxes| {
        assert Mb(env).x <= env.part.boxes[o].x;
      }
    }
  }

  /** With the corrected bounds, a column loop that finds nothing has passed
      over every feasible corner of row `r` from column `x` on. */
  lemma {:induction false} ColsComplete(env: Env, s: nat, r: nat, x: int, b: Best)
    requires ValidEnv(env) && VolumeBound(env) && Sound(env, b)
    requires r <= s && 0 <= x
    requires s - r <= env.sd.z - Mb(env).z && x >= r - (env.sd.y - Mb(env).y)
    requires Cols(Corrected, env, s, r, x, b).volume == IntMax
    ensures NoneInRow(env, s, r, x)
    decreases r + 1 - x
  {
    if !ColGo(Corrected, env, r, x) {
      PastColEnd(env, s, r, x);
    } else {
      var b' := ColsStep(env, s, r, x, b);
      ColsComplete(env, s, r, x + 1, b');
      RowFromColumn(env, s, r, x);
    }
  }

  /** A row with nothing at column `x` and nothing beyond it has nothing from
      column `x` on. */
  lemma RowFromColumn(env: Env, s: nat, r: nat, x: nat)
    requires ValidEnv(env) && x <= r <= s && NoneInRow(env, s, r, x + 1)
    requires NoneAt(env, Pos(x, r - x, s - r))
    ensures NoneInRow(env, s, r, x)
  {
    forall q: Pos, o: nat | q.x + q.y + q.z == s && q.x + q.y == r && q.x >= x
      ensures !Feasible(env.space, env.sd, env.part, q, env.sd, o)
    {
      if q.x == x {
        assert q == Pos(x, r - x, s - r);
      }
    }
  }

  /** A row whose corners can hold the smallest box is never pruned while
      `best` is `INT_MAX`. */
  lemma RowBoundBelow(env: Env, z: nat)
    requires VolumeBound(env) && z + Mb(env).z <= env.sd.z
    ensures RowLowerBound(env, z) < IntMax
  {
    var cx, cy, cz := Max(env.sd.x, env.lim.x), Max(env.sd.y, env.lim.y), Max(env.sd.z, env.lim.z);
    MulMono3(Max(env.lim.z, z + Mb(env).z), env.lim.y, env.lim.x, cz, cy, cx);
    MulSwap3(cz, cy, cx);
  }

  /** Corners of a row left of the corrected column start cannot hold any
      orientation: their `y` leaves no room for the smallest y extent; so a
      row with nothing from the column start on has nothing at all. */
  lemma BeforeColStart(env: Env, s: nat, r: nat)
    requires ValidEnv(env) && NoneInRow(env, s, r, ColStart(Corrected, env, r))
    ensures NoneInRow(env, s, r, 0)
  {
    forall q: Pos, o: nat | q.x + q.y + q.z == s && q.x + q.y == r
      ensures !Feasible(env.space, env.sd, env.part, q, env.sd, o)
    {
      if o < |env.part.boxes| {
        assert Mb(env).y <= env.part.boxes[o].y;
      }
    }
  }

  /** Past the corrected row bound no corner of the shell can hold any
      orientation. */
  lemma PastRowEnd(env: Env, s: nat, r: int)
    requires ValidEnv(env) && !RowGo(Corrected, env, s, r)
    ensures NoneInShell(env, s, r)
  {
    forall q: Pos, o: nat | q.x + q.y + q.z == s && q.x + q.y >= r
      ensures !Feasible(env.space, env.sd, env.part, q, env.sd, o)
    {
      if o < |env.part.boxes| {
        assert Mb(env).x <= env.part.boxes[o].x && Mb(env).y <= env.part.boxes[o].y;
      }
    }
  }

  /** A shell with nothing in row `r` and nothing beyond it has nothing from
      row `r` on. */
  lemma ShellFromRow(env: Env, s: nat, r: int)
    requires ValidEnv(env) && r >= 0 && NoneInRow(env, s, r, 0) && NoneInShell(env, s, r + 1)
    ensures NoneInShell(env, s, r)
  {
    forall q: Pos, o: nat | q.x + q.y + q.z == s && q.x + q.y >= r
      ensures !Feasible(env.space, env.sd, env.part, q, env.sd, o)
    {
      if q.x + q.y == r {
        assert q.x >= 0;
      }
    }
  }

  /** One step of the corrected row loop while nothing has been found: the
      row is not pruned. */
  lemma RowsStep(env: Env, s: nat, r: nat, b: Best) returns (c: Best)
    requires ValidEnv(env) && VolumeBound(env) && Sound(env, b) && b.volume == IntMax
    requires r <= s && RowGo(Corrected, env, s, r) && s - (env.sd.z - Mb(env).z) <= r
    ensures c == Cols(Corrected, env, s, r, ColStart(Corrected, env, r), b)
    ensures Sound(env, c) && Rows(Corrected, env, s, r, b) == Rows(Corrected, env, s, r + 1, c)
  {
    RowBoundBelow(env, s - r);
    c := Cols(Corrected, env, s, r, ColStart(Corrected, env, r), b);
  }

  /** With the corrected bounds, a row loop that finds nothing has passed
      over every feasible corner of shell `s` from row `r` on. */
  lemma {:induction false} RowsComplete(env: Env, s: nat, r: int, b: Best)
    requires ValidEnv(env) && VolumeBound(env) && Sound(env, b)
    requires 0 <= r && s - (env.sd.z - Mb(env).z) <= r
    requires Rows(Corrected, env, s, r, b).volume == IntMax
    ensures NoneInShell(env, s, r)
    decreases s + 1 - r
  {
    if !RowGo(Corrected, env, s, r) {
      PastRowEnd(env, s, r);
    } else {
      var c := RowsStep(env, s, r, b);
      ColsComplete(env, s, r, ColStart(Corrected, env, r), b);
      BeforeColStart(env, s, r);
      RowsComplete(env, s, r + 1, c);
      ShellFromRow(env, s, r);
    }
  }

  /** Past the corrected shell bound no corner can hold any orientation. */
  lemma PastShellEnd(env: Env, s: nat)
    requires ValidEnv(env) && s >= ShellEnd(Corrected, env)
    ensures NoneFrom(env, s)
  {
    forall q: Pos, o: nat | q.x + q.y + q.z >= s
      ensures !Feasible(env.space, env.sd, env.part, q, env.sd, o)
    {
      if o < |env.part.boxes| {
        var bx := env.part.boxes[o];
        assert Mb(env).x <= bx.x && Mb(env).y <= bx.y && Mb(env).z <= bx.z;
      }
    }
  }

  /** Rows below the corrected row start cannot hold any orientation: their
      `z` leaves no room for the smallest z extent; so nothing in shell `s`
      from the row start on and nothing beyond it means nothing from `s`
      on. */
  lemma ShellsFromShell(env: Env, s: nat)
    requires ValidEnv(env)
    requires NoneInShell(env, s, RowStart(Corrected, env, s)) && NoneFrom(env, s + 1)
    ensures NoneFrom(env, s)
  {
    forall q: Pos, o: nat | q.x + q.y + q.z >= s
      ensures !Feasible(env.space, env.sd, env.part, q, env.sd, o)
    {
      if q.x + q.y + q.z == s && o < |env.part.boxes| {
        assert Mb(env).z <= env.part.boxes[o].z;
      }
    }
  }

  /** One step of the corrected shell loop. */
  lemma ShellsStep(env: Env, s: nat, b: Best) returns (rows: Best)
    requires ValidEnv(env) && Sound(env, b) && s < ShellEnd(Corrected, env)
    ensures rows == Rows(Corrected, env, s, RowStart(Corrected, env, s), b)
    ensures Sound(env, rows) && Shells(Corrected, env, s, b) == Shells(Corrected, env, s + 1, rows)
  {
    rows := Rows(Corrected, env, s, RowStart(Corrected, env, s), b);
  }

  /** With the corrected bounds, a shell loop that finds nothing has passed
      over every feasible corner from shell `s` on. */
  lemma {:induction false} ShellsComplete(env: Env, s: nat, b: Best)
    requires ValidEnv(env) && VolumeBound(env) && Sound(env, b)
    requires Shells(Corrected, env, s, b).volume == IntMax
    ensures NoneFrom(env, s)
    decreases ShellEnd(Corrected, env) - s
  {
    if s >= ShellEnd(Corrected, env) {
      PastShellEnd(env, s);
    } else {
      var rows := ShellsStep(env, s, b);
      RowsComplete(env, s, RowStart(Corrected, env, s), b);
      ShellsComplete(env, s + 1, rows);
      ShellsFromShell(env, s);
    }
  }

  /** With the corrected bounds, and products within `int`, the search fails
      exactly when no orientation of the part can be placed anywhere in the
      space. */
  lemma CorrectedSearchComplete(env: Env)
    requires ValidEnv(env) && VolumeBound(env)
    ensures Search(Corrected, env).volume < IntMax <==> AnyFeasible(env.space, env.sd, env.part, env.sd)
  {
    var b := Search(Corrected, env);
    if b.volume == IntMax {
      ShellsComplete(env, 0, NoneFound);
    } else {
      var c := b.choice.value;
      assert Feasible(env.space, env.sd, env.part, c.pos, env.sd, c.orient);
    }
  }

  /** A part made of one orientation: a solid box of extents `b`. */
  function SolidBox(b: Dims): (part: Part)
    ensures ValidPart(part)
  {
    Part(1, b.x * b.y * b.z, [b], Filled(b, {0}), b)
  }

  /** An empty space of extents `sd` with limits `lim`, growing for a solid
      box `b`. */
  function EmptyEnv(sd: Dims, b: Dims, lim: Dims): (env: Env)
    ensures ValidEnv(env)
  {
    Env(Filled(sd, false), sd, SolidBox(b), lim)
  }

  /** In an empty space nothing collides, so a box that fits is feasible at
      the origin. */
  lemma EmptyOriginFeasible(env: Env)
    requires ValidEnv(env) && env.space == Filled(env.sd, false)
    requires FitsAt(env.part.boxes[0], Pos(0, 0, 0), env.sd)
    ensures Feasible(env.space, env.sd, env.part, Pos(0, 0, 0), env.sd, 0)
  {
    assert !Collides(env.space, env.sd, env.part.voxels, env.part.vd, 0, 0, 0, 0);
  }

  /** The C++ bounds: growing the limits `1 x 1 x 1` for a unit cube in an
      empty `2 x 2 x 2` space finds nothing, although the cube fits at the
      origin and the corrected bounds find it. In every shell the row start
      `s - 2 - 1` is negative, wraps to a huge `size_t`, and fails the row
      condition at once. */
  lemma CppSearchMissesCorner()
    ensures var env := EmptyEnv(Dims(2, 2, 2), Dims(1, 1, 1), Dims(1, 1, 1));
      ModeOk(CppAsWritten, env) && VolumeBound(env) &&
      Feasible(env.space, env.sd, env.part, Pos(0, 0, 0), env.sd, 0) &&
      Search(CppAsWritten, env).volume == IntMax &&
      Search(Corrected, env).volume < IntMax
  {
    var env := EmptyEnv(Dims(2, 2, 2), Dims(1, 1, 1), Dims(1, 1, 1));
    assert Mb(env) == Dims(1, 1, 1);
    assert ShellEnd(CppAsWritten, env) == 3;
    forall s: nat | s < 3
      ensures Rows(CppAsWritten, env, s, RowStart(CppAsWritten, env, s), NoneFound) == NoneFound
    {
      AsInt32AsSizeT(s - 3);
      assert RowStart(CppAsWritten, env, s) == s - 3;
      assert AsSizeT(s - 3) == s - 3 + SizeTRange;
    }
    assert Shells(CppAsWritten, env, 2, NoneFound) == NoneFound;
    assert Shells(CppAsWritten, env, 1, NoneFound) == NoneFound;
    EmptyOriginFeasible(env);
    CorrectedSearchComplete(env);
  }

  /** The C# bounds: growing the limits `1 x 1 x 1` for a `1 x 1 x 3` box in
      an empty `2 x 2 x 4` space finds nothing, although the box fits at the
      origin and the corrected bounds find it. The column bound
      `Space.GetLength(0) - minBZ = 2 - 3` is negative, so no column of any
      row is examined. */
  lemma CSharpSearchMissesCorner()
    ensures var env := EmptyEnv(Dims(2, 2, 4), Dims(1, 1, 3), Dims(1, 1, 1));
      VolumeBound(env) &&
      Feasible(env.space, env.sd, env.part, Pos(0, 0, 0), env.sd, 0) &&
      Search(CSharpAsWritten, env).volume == IntMax &&
      Search(Corrected, env).volume < IntMax
  {
    var env := EmptyEnv(Dims(2, 2, 4), Dims(1, 1, 3), Dims(1, 1, 1));
    assert Mb(env) == Dims(1, 1, 3);
    assert ShellEnd(CSharpAsWritten, env) == 3;
    forall s: nat, r: nat | r <= s < 3
      ensures Cols(CSharpAsWritten, env, s, r, ColStart(CSharpAsWritten, env, r), NoneFound) == NoneFound
    {
      assert !ColGo(CSharpAsWritten, env, r, ColStart(CSharpAsWritten, env, r));
    }
    forall s: nat | s < 3
      ensures Rows(CSharpAsWritten, env, s, 0, NoneFound) == NoneFound
    {
      assert Rows(CSharpAsWritten, env, s, 3, NoneFound) == NoneFound;
      assert Rows(CSharpAsWritten, env, s, 2, NoneFound) == NoneFound;
      assert Rows(CSharpAsWritten, env, s, 1, NoneFound) == NoneFound;
    }
    assert Shells(CSharpAsWritten, env, 2, NoneFound) == NoneFound;
    assert Shells(CSharpAsWritten, env, 1, NoneFound) == NoneFound;
    EmptyOriginFeasible(env);
    CorrectedSearchComplete(env);
  }

  /** The limits grown to take a box whose far corner is `c`:
      `max(max, new + 2)` on each axis. */
  function Grow(lim: Dims, c: Pos): (r: Dims)
    ensures lim.x <= r.x && lim.y <= r.y && lim.z <= r.z
    ensures c.x < r.x && c.y < r.y && c.z < r.z
    ensures (r.x == lim.x || r.x == c.x + 2) && (r.y == lim.y || r.y == c.y + 2) && (r.z == lim.z || r.z == c.z + 2)
  {
    Dims(Max(lim.x, c.x + 2), Max(lim.y, c.y + 2), Max(lim.z, c.z + 2))
  }

  /** The growth step of both stackers, with the corrected bounds: search
      the whole space, and either fail (`best` stayed `INT_MAX`) or grow the
      limits around the chosen placement, which then fits within them. */
  function Enlarge(env: Env): (r: Option<Dims>)
    requires ValidEnv(env)
    ensures r.Some? ==>
      env.lim.x <= r.value.x && env.lim.y <= r.value.y && env.lim.z <= r.value.z &&
      AnyFeasible(env.space, env.sd, env.part, r.value)
    ensures r.None? && VolumeBound(env) ==> !AnyFeasible(env.space, env.sd, env.part, env.sd)
  {
    var best := Search(Corrected, env);
    if best.volume == IntMax then
      if VolumeBound(env) then
        CorrectedSearchComplete(env);
        None
      else
        None
    else
      var c := best.choice.value;
      var grown := Grow(env.lim, NewCorner(env, c));
      assert Feasible(env.space, env.sd, env.part, c.pos, grown, c.orient);
      Some(grown)
  }
}
