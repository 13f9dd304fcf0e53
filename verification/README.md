# PartStacker core, modelled in Dafny

PartStacker packs 3D parts into a build volume. First every part is turned
into voxels: the mesh is rasterised, air is carved out from the outside with
a cubic "carver", the rest is made convex along each axis, and the result is
dilated by one voxel. Then the stacker takes the parts in order of volume,
largest first. It puts each instance at the first free corner of a diagonal
scan of the current limits. When a part no longer fits, it grows the limits
around the cheapest placement among the corners its pruned search of the
whole space reaches. The C++ stacker
(`src/pstack/calc/stacker.cpp`) and the older C# stacker
(`PartStacker/PartStacker.cs`) share this design. They differ in how they
step through parts and instances: the C# version keeps a `Remaining` count
per part and a part index `p` that only moves down.

This project models:

- the occupancy grid with `can_place` / `place` (module `Occupancy`);
- the bounding-box orientation filter and the choice of the lowest orientation (`Parts`);
- the corner scan order (`Scan`);
- the growth search, in three modes: C++ as written, C# as written, and corrected (`Growth`);
- the two stackers (`Stacker` for C++, `PartStacker` for C#);
- the voxeliser: carving flood fill (`Carving`), convexify passes (`Convexify`), and dilation and volume (`Voxelize`);
- the rectangular bin packer with its result cache (`BinPackTypes`, `BinPackCache`, `BinPack`);
- `vector3` (`Vector3`);
- `files::split` (`Split`);
- the quantity parsing and row deletion of the parts list (`PartsList`).

Modelling conventions:

- Orientation bit masks (`int possible`, bit `2^i` meaning orientation `i`, the bit each orientation is voxelised with) are sets of orientation numbers. The source builds each bit with `bit_index *= 2` in an `int` (stacker.cpp:87, :96, :225 and :294; PartStacker.cs:165). With the 32 arbitrary rotations (rotations.cpp:6), orientation 31's bit is `2^31`, which overflows a signed 32-bit `int`: undefined behaviour in C++, and `int.MinValue` under C#'s wrap-around. The model does not represent the 32-bit width. Under two's-complement wrap-around, `2^31` becomes the sign bit, and `|`, `&`, `^` and `!= 0` on that bit pattern still act as set union, intersection, difference and non-emptiness. So the set model agrees with the wrapped behaviour, but not with a C++ build that exploits the undefined behaviour. `Occupancy.AndXorClears` shows that the source's `p & (p ^ o)` is set difference.
- Grids are nested sequences indexed `[x][y][z]`.
- C++ `size_t` wrap-around and `int` truncation are written out (`Grid.AsSizeT`, `Growth.AsInt32`): in the growth loops, in the carving range test, and in the conversion of a part's `int` quantity to the `size_t` count of instances to place (`Parts.ToPlace`).
- The bin packer takes the cache lookup rule as a parameter: `Lexicographic` is `try_get` as written, `Componentwise` the corrected rule (see Findings). Validity of the packing is proved for the corrected rule; for the rule as written it is proved only that the score is the wrapped sum of the placed items' scores and that every placed item is on the item list.
- C++ division truncates toward zero (`BinPackCache.TruncDiv`).
- Packing scores are `uint32_t` and wrap modulo 2^32.

## Model

| member | source | states |
|---|---|---|
| Vector3.CrossOrthogonal | src/pstack/geo/vector3.hpp:133-141 | the cross product is orthogonal to both of its factors under the dot product |
| Vector3.Compare | src/pstack/geo/vector3.hpp:42-51 | three-way comparison is lexicographic over x, y, z, and Equal exactly when the vectors are equal |
| Vector3.CompareAntisymmetric | src/pstack/geo/vector3.hpp:42-51 | swapping the operands flips the comparison result |
| Vector3.LexLeTotalOrder | src/pstack/geo/vector3.hpp:42-51 | the `<=` derived from `<=>` is reflexive, total, antisymmetric and transitive |
| Vector3.FitsPartialOrder | src/pstack/geo/vector3.hpp:72-75 | `fits` is a partial order that implies the lexicographic order but is not the same as it |
| Vector3.ComponentMin | src/pstack/geo/vector3.hpp:53-56 | the result fits in both inputs, takes each component from one of them, and is the greatest such lower bound |
| Vector3.ComponentMax | src/pstack/geo/vector3.hpp:58-61 | the result contains both inputs, takes each component from one of them, and is the least such upper bound |
| Vector3.ComponentMinMaxLaws | src/pstack/geo/vector3.hpp:53-61 | min and max are commutative and idempotent; `fits(a, b)` holds exactly when max(a, b) = a, and exactly when min(a, b) = b |
| Vector3.Sort | src/pstack/geo/vector3.hpp:63-70 | the three compare-and-swap steps give ascending components that are a permutation of the input |
| Vector3.SortMonotone | src/pstack/geo/vector3.hpp:63-75 | if `b` fits in `a`, sorted `b` fits in sorted `a`, which is the fact the bin packer's minimum-size pruning relies on |
| Split.Find | src/pstack/files/split.cpp:8-10 | `find` returns the first delimiter at or after the start position, or reports that none is left |
| Split.SplitFromRejoins | src/pstack/files/split.cpp:7-16 | joining the pieces from a position onward with the delimiter gives back the rest of the string |
| Split.SplitFromCount | src/pstack/files/split.cpp:7-16 | there is one more piece than there are delimiters |
| Split.Split | src/pstack/files/split.cpp:5-18 | pieces contain no delimiter, there are delimiters + 1 of them, they join back to the input, and an empty input gives one empty piece |
| Split.SplitJoin | src/pstack/files/split.cpp:5-18 | splitting a join of delimiter-free pieces returns exactly those pieces |
| Split.JoinInjective | src/pstack/files/split.cpp:5-18 | two sequences of delimiter-free pieces with the same join are equal |
| Split.JoinHasDelimiter | src/pstack/files/split.cpp:5-18 | a join contains the delimiter exactly when it has at least two pieces |
| PartsList.TrailingDigits | src/pstack/gui/parts_list.cpp:25-28 | the counted suffix consists of digits and is maximal: the character before it is not a digit |
| PartsList.TrailingDigitsAfterStop | src/pstack/gui/parts_list.cpp:25-28 | after a non-digit, the count is exactly the length of the appended digit run |
| PartsList.QuantityDotSuffix | src/pstack/gui/parts_list.cpp:19-36 | a name ending in `.` and digits has the quantity those digits spell, or -1 when they exceed `INT_MAX` |
| PartsList.QuantityParenSuffix | src/pstack/gui/parts_list.cpp:19-36 | a name ending in `(digits)` has the quantity those digits spell, or -1 when they exceed `INT_MAX` |
| PartsList.QuantityDefault | src/pstack/gui/parts_list.cpp:29-31 | a quantity other than 1 only comes from a `.digits` or `(digits)` suffix |
| PartsList.UnselectedRun | src/pstack/gui/parts_list.cpp:99-111 | a run of unselected rows passes through deletion unchanged |
| PartsList.SelectedIndices | src/pstack/gui/parts_list.cpp:100-105 | the collected indices are exactly the selected rows, in ascending order |
| PartsList.DeleteSelected | src/pstack/gui/parts_list.cpp:99-111 | erasing the selected rows from the back keeps exactly the unselected rows in their order, and no selection flag remains |
| PartsList.DeleteFinish | src/pstack/gui/parts_list.cpp:99-111 | once every index is erased, the rows are the unselected rows and no flag is set |
| Occupancy.AndXorClears | src/pstack/calc/stacker.cpp:55-58 | `p & (p ^ o)` clears exactly the bits of `o` from `p` |
| Occupancy.CanPlace | src/pstack/calc/stacker.cpp:46-68 | the result is the set of requested orientations whose voxels hit no occupied cell of the footprint clipped to the space; the C# `CanPlace` (PartStacker.cs lines 328-343) has the same loops |
| Occupancy.Place | src/pstack/calc/stacker.cpp:29-44 | a cell is occupied afterwards exactly when it was before or the chosen orientation covers it; occupied cells stay occupied and cells outside the footprint are untouched; the C# `Place` (PartStacker.cs lines 345-355) is the same |
| Occupancy.PlaceableSubset | src/pstack/calc/stacker.cpp:46-68 | `can_place` never adds an orientation |
| Occupancy.PlaceableInEmptySpace | src/pstack/calc/stacker.cpp:46-68 | in an empty space every requested orientation stays possible |
| Occupancy.FreeWhereCovered | src/pstack/calc/stacker.cpp:29-68 | an orientation that `can_place` accepts covers no occupied cell |
| Occupancy.EmptyExact | src/pstack/calc/stacker.cpp:235-239 | the empty space holds exactly the empty list of placements |
| Occupancy.PlaceKeepsInvariants | src/pstack/calc/stacker.cpp:29-68 | placing an accepted orientation keeps the space equal to the union of the placed parts, and placed parts never overlap |
| Parts.FitFrom | src/pstack/calc/stacker.cpp:80-88 | an orientation is in the mask exactly when its box ends strictly inside the limits |
| Parts.LowestFrom | src/pstack/calc/stacker.cpp:92-111 | the committed orientation is a possible one and the lowest numbered of them |
| Parts.PlaceableFeasible | src/pstack/calc/stacker.cpp:80-92 | `can_place` applied to the fit mask gives exactly the feasible orientations |
| Parts.FeasibleWider | src/pstack/calc/stacker.cpp:80-88 | larger limits keep a feasible placement feasible |
| Parts.InsertDescending | src/pstack/calc/stacker.cpp:125 | inserting into a list sorted by descending volume keeps it sorted and adds exactly that part |
| Parts.SortByVolumeDescending | src/pstack/calc/stacker.cpp:125 | the order is a permutation of the parts with volumes descending |
| Parts.InsertAscending | PartStacker/PartStacker.cs:70 | inserting into a list sorted by ascending volume keeps it sorted and adds exactly that part |
| Parts.OrderByVolume | PartStacker/PartStacker.cs:70 | the order is a permutation of the parts with volumes ascending |
| Parts.LastIndexFirstIsDescending | PartStacker/PartStacker.cs:70-181 | walking the ascending order from the last index down visits the parts by descending volume, as the C++ order does |
| Parts.Reverse | PartStacker/PartStacker.cs:180-181 | the reversed sequence holds element `n - 1 - i` at index `i` |
| Parts.ToPlace | src/pstack/calc/stacker.cpp:245 | the count of instances to place is the quantity when it is non-negative, and 2^64 - 1 for the quantity -1 left by a failed parse |
| Scan.Column | src/pstack/calc/stacker.cpp:72-76 | a column holds exactly the corners with the given `x + y` and `z` within the x range, in scan order |
| Scan.Rows | src/pstack/calc/stacker.cpp:72-76 | the rows of a shell hold exactly the corners of that shell inside the limits, in scan order |
| Scan.Shells | src/pstack/calc/stacker.cpp:72-76 | from shell `s` on, the scan visits exactly the corners inside the limits with `x + y + z >= s`, each once and in order |
| Scan.ScanOrderSpec | src/pstack/calc/stacker.cpp:72-76 | the whole scan visits every corner inside the limits exactly once, strictly ordered by shell, then `x + y`, then `x` |
| Scan.ConcatOrdered | src/pstack/calc/stacker.cpp:72-76 | two ordered scans, the first wholly earlier than the second, concatenate to an ordered scan |
| Stacker.TryPlace | src/pstack/calc/stacker.cpp:70-119 | places at most `to_place` instances, each at a feasible corner within the limits and in scan order; the space holds exactly the placed parts; nothing is placed exactly when no orientation is feasible anywhere within the limits |
| Stacker.Visit | src/pstack/calc/stacker.cpp:80-111 | at one corner either one instance is placed in its lowest feasible orientation, or the space is unchanged and no orientation is feasible there |
| Stacker.ScanBlocked | src/pstack/calc/stacker.cpp:70-119 | when every corner of the scan is blocked, no placement is feasible within the limits |
| Stacker.StackPart | src/pstack/calc/stacker.cpp:244-327 | the limits only grow; on success exactly the part's quantity, converted to `size_t`, of instances is placed, and on failure fewer; on failure, with products below `INT_MAX`, the part fits nowhere in the whole space |
| Stacker.CountAppend | src/pstack/calc/stacker.cpp:244-327 | the number of instances of a part in a concatenation is the sum of the counts |
| Stacker.CountUniform | src/pstack/calc/stacker.cpp:244-327 | a run of instances of one part counts only for that part |
| Stacker.Stack | src/pstack/calc/stacker.cpp:121-333 | a result orders the parts by descending volume, holds exactly the `size_t` count of instances of every part without overlap, and only grows the limits; no result (stacker.cpp:320-322) comes with a part of the input, the grid it failed in and the limits, and under `VolumeBound` that part fits nowhere in that grid |
| PartStacker.SumDecrement | PartStacker/PartStacker.cs:308 | decrementing one remaining count lowers the total by one |
| PartStacker.SumAccounted | PartStacker/PartStacker.cs:304-314 | the remaining total drops by exactly the number of instances placed |
| PartStacker.TryPlace | PartStacker/PartStacker.cs:269-326 | instances are placed in scan order, each counted against its part's `Remaining`, while `p` moves down past finished parts; nothing is placed exactly when the current part fits nowhere within the limits, and then nothing changes |
| PartStacker.Round | PartStacker/PartStacker.cs:179-263 | one round of the main loop keeps the stacking invariant and strictly lowers the remaining total, or grows the limits so the current part fits; a failed round (PartStacker.cs:250-254) still keeps the invariant, and under `VolumeBound` its current part fits nowhere in the space |
| PartStacker.AfterScan | PartStacker/PartStacker.cs:183-187 | after a scan the space holds exactly the placements and the remaining counts agree with them |
| PartStacker.Progress | PartStacker/PartStacker.cs:304-314 | each part's placed count equals its quantity minus its remaining count, and the total never goes negative |
| PartStacker.Finished | PartStacker/PartStacker.cs:181-187 | once `p` passes below zero every part has all its instances placed |
| PartStacker.Stack | PartStacker/PartStacker.cs:179-263 | a result places exactly `quantity` instances of each part without overlap, with the part index never increasing along the placements, that is, larger parts first; no result (`Result = null`, PartStacker.cs:250-254) comes with a part of the input, its grid and limits, and under `VolumeBound` that part fits nowhere in the space |
| PartStacker.NonIncreasingAppend | PartStacker/PartStacker.cs:304-314 | a run of placements whose part indices all lie at or below those of an earlier run extends it without breaking the descending part order |
| Growth.AsInt32AsSizeT | src/pstack/calc/stacker.cpp:273 | converting an `int` to `size_t` and back restores it |
| Growth.SizeTLe | src/pstack/calc/stacker.cpp:273-279 | a `size_t` comparison against a small bound holds only for a small non-negative value |
| Growth.MinBox | src/pstack/calc/stacker.cpp:263-270 | the result is a lower bound of every orientation's box on each axis |
| Growth.ConsiderOrients | src/pstack/calc/stacker.cpp:288-314 | the best placement is never worse than any feasible orientation at the corner, and what it records is feasible with that volume |
| Growth.Candidates | src/pstack/calc/stacker.cpp:288-298 | the candidate orientations are exactly those feasible at the corner within the whole space |
| Growth.Search | src/pstack/calc/stacker.cpp:272-316 | a found placement is feasible in the whole space and its grown volume is the recorded best |
| Growth.ColsComplete | src/pstack/calc/stacker.cpp:279-316 | a row that found nothing has no feasible placement from the starting column on |
| Growth.RowsComplete | src/pstack/calc/stacker.cpp:273-316 | a shell that found nothing has no feasible placement from the starting row on |
| Growth.ShellsComplete | src/pstack/calc/stacker.cpp:272-316 | shells that found nothing have no feasible placement from that shell on |
| Growth.CorrectedSearchComplete | src/pstack/calc/stacker.cpp:272-322 | with the corrected loop bounds the search finds a placement exactly when the part fits somewhere in the space |
| Growth.EmptyOriginFeasible | src/pstack/calc/stacker.cpp:80-88 | in an empty space, an orientation whose box fits at the origin is feasible there |
| Growth.CppSearchMissesCorner | src/pstack/calc/stacker.cpp:272-273 | the C++ bounds miss a placement that exists (see Findings) |
| Growth.CSharpSearchMissesCorner | PartStacker/PartStacker.cs:210 | the C# column bound misses a placement that exists (see Findings) |
| Growth.Grow | src/pstack/calc/stacker.cpp:324-326 | the grown limits contain the old ones and reach past the chosen box's far corner |
| Growth.Enlarge | src/pstack/calc/stacker.cpp:256-327 | on success the part fits within the grown limits; on failure, with products below `INT_MAX`, it fits nowhere in the space |
| Carving.Corners | src/pstack/calc/voxelize.cpp:60-62 | the corners the flood fill may visit are exactly those where the carver lies inside the grid |
| Carving.Seeds | src/pstack/calc/voxelize.cpp:45-53 | the seeds are exactly the grid cells on the low faces or on the planes `extent - carver` |
| Carving.Carve | src/pstack/calc/voxelize.cpp:41-97 | every carved corner is in range with a clear carver block, every clear seed is carved, the carved set is closed under clear neighbours, and every carved corner traces back to a seed; a carver wider than the grid carves nothing |
| Carving.FillStep | src/pstack/calc/voxelize.cpp:55-96 | one pop keeps the flood-fill invariant and strictly shrinks the pending work |
| Carving.CarvedGrid | src/pstack/calc/voxelize.cpp:81-87 | a voxel is marked carved exactly when some carved corner's block covers it |
| Carving.CarvedNotSurface | src/pstack/calc/voxelize.cpp:65-87 | carving never marks a surface voxel |
| Carving.ReachedFromSeed | src/pstack/calc/voxelize.cpp:55-96 | every carved corner is joined to a seed by a path of carved neighbouring corners |
| Carving.RootedReached | src/pstack/calc/voxelize.cpp:55-96 | when the flood fill's ranks and parents are consistent, every carved corner is reached from a seed through carved corners |
| Carving.BlockInGrid | src/pstack/calc/voxelize.cpp:60-69 | a corner that passes the range test has its whole carver block inside the grid |
| Carving.CppRangeTestAgrees | src/pstack/calc/voxelize.cpp:60 | while the carver fits the grid, the C++ `size_t` range test accepts exactly the corners in range |
| Carving.CppRangeTestAdmitsOversizedCarver | src/pstack/calc/voxelize.cpp:60-69 | with a carver wider than the grid, the C++ range test passes a corner whose block leaves the grid (see Findings) |
| Convexify.SpanNeverClears | src/pstack/calc/voxelize.cpp:102-118 | the fill of a column never clears a voxel |
| Convexify.SpanClosed | src/pstack/calc/voxelize.cpp:102-118 | every voxel between two set voxels of a column is set |
| Convexify.SpanOfEmpty | src/pstack/calc/voxelize.cpp:102-118 | a column with no voxel is left unchanged |
| Convexify.SpanIdempotent | src/pstack/calc/voxelize.cpp:102-118 | filling a filled column changes nothing |
| Convexify.FillSpan | src/pstack/calc/voxelize.cpp:102-118 | the `minV`/`maxV` loops with the half-open fill produce the closed span between the first and last set voxel |
| Convexify.ConvexNeverClears | src/pstack/calc/voxelize.cpp:102-156 | the three passes never clear a voxel |
| Convexify.PassZClosed | src/pstack/calc/voxelize.cpp:102-118 | the z pass fills between any two set voxels of a z column |
| Convexify.PassYClosed | src/pstack/calc/voxelize.cpp:121-137 | the y pass fills between any two set voxels of a y column |
| Convexify.PassXClosed | src/pstack/calc/voxelize.cpp:140-156 | the x pass fills between any two set voxels of an x column |
| Convexify.PassZOnlyBetween | src/pstack/calc/voxelize.cpp:102-118 | the z pass sets only voxels that lie between two set voxels of their column |
| Convexify.PassYOnlyBetween | src/pstack/calc/voxelize.cpp:121-137 | the y pass sets only voxels that lie between two set voxels of their column |
| Convexify.PassXOnlyBetween | src/pstack/calc/voxelize.cpp:140-156 | the x pass sets only voxels that lie between two set voxels of their column |
| Convexify.ConvexAlongX | src/pstack/calc/voxelize.cpp:102-156 | after the three passes every x line is convex |
| Voxelize.DilateMarksTargets | src/pstack/calc/voxelize.cpp:162-176 | each marked voxel sets the orientation bit on its seven `+x/+y/+z` neighbours in the grid |
| Voxelize.DilateOnlyTargets | src/pstack/calc/voxelize.cpp:162-176 | a newly set bit always has a marked voxel at one of the seven offsets below it |
| Voxelize.DilateKeepsOthers | src/pstack/calc/voxelize.cpp:162-176 | dilation never clears a bit and leaves the other orientations' bits alone |
| Voxelize.RowCount | src/pstack/calc/voxelize.cpp:179-182 | counting a row gives the number of its voxels that carry the bit |
| Voxelize.PlaneCount | src/pstack/calc/voxelize.cpp:179-182 | counting a plane gives the number of its voxels that carry the bit |
| Voxelize.GridCount | src/pstack/calc/voxelize.cpp:179-182 | counting the grid gives the number of its voxels that carry the bit |
| Voxelize.VolumeCounts | src/pstack/calc/voxelize.cpp:179-182 | the returned volume is the number of voxels carrying the orientation's bit |
| Voxelize.DilateVolume | src/pstack/calc/voxelize.cpp:162-182 | dilation never lowers the volume |
| Voxelize.CarveAndConvexify | src/pstack/calc/voxelize.cpp:41-160 | the carved corners are clear, include every clear seed, are closed under clear neighbours and are each reached from a seed; the cells kept for expansion are the convexified surface minus the carved voxels, including every rendered surface voxel |
| Voxelize.KeepsSurface | src/pstack/calc/voxelize.cpp:65-160 | no rendered surface voxel is carved or cleared by the convexify passes |
| Voxelize.Voxelize | src/pstack/calc/voxelize.cpp:14-183 | the result keeps every bit it had, changes only this orientation's bit, sets it on the seven upper neighbours of every surface voxel, reports the volume as the count of voxels with the bit; with carver 0 it is the plain dilation of the surface, and with a positive carver it returns the carved corners, which are clear, include every clear seed, are closed under clear neighbours and are each reached from a seed through carved corners, and dilates exactly the convexified surface minus the carved voxels |
| BinPackTypes.Split2 | src/pstack/calc/binpack_types.hpp:39-49 | the first half keeps the box's corner and has extent `offset` along the axis, the second starts at the offset and has the rest of that extent, and both keep the box's other extents |
| BinPackTypes.Split2Geometry | src/pstack/calc/binpack_types.hpp:39-49 | with an offset inside the box, both halves lie inside it and are disjoint |
| BinPackTypes.Split3 | src/pstack/calc/binpack_types.hpp:27-35 | for an item that fits, the three remainders have non-negative sizes, and for a non-empty item each is smaller than the box |
| BinPackTypes.SplitSizes | src/pstack/calc/binpack_types.hpp:27-35 | the remainder sizes are what is left of the box after the item along each axis, in split order |
| BinPackTypes.SplitGeometry | src/pstack/calc/binpack_types.hpp:27-35 | the item's box and the three remainders lie inside the box and are pairwise disjoint |
| BinPackTypes.Translate | src/pstack/calc/binpack_types.hpp:61-65 | translation moves every placement by the offset and keeps the items and the score |
| BinPackTypes.TranslateInverse | src/pstack/calc/binpack_types.hpp:61-65 | translating by an offset and then by its negation gives the result back |
| BinPackTypes.Combine | src/pstack/calc/binpack.cpp:6-25 | the combined result has the new placement first, then the three sub-results in order, with the `uint32_t` sum of the scores |
| BinPackTypes.CombineScoreConsistent | src/pstack/calc/binpack.cpp:6-25 | if each total score is the wrapped sum of its items' scores, so is the combined one |
| BinPackCache.TruncDiv | src/pstack/calc/binpack_cache.hpp:17-19 | C++ division truncates toward zero for either sign of the dividend |
| BinPackCache.TruncDivMonotone | src/pstack/calc/binpack_cache.hpp:17-19 | truncating division by a positive cell size is monotone |
| BinPackCache.KeyForMonotone | src/pstack/calc/binpack_cache.hpp:17-19 | a vector that fits in another has a key at most the other's on every axis |
| BinPackCache.KeyRange | src/pstack/calc/binpack_cache.hpp:26-32 | the generated keys are exactly those in the box between the two keys |
| BinPackCache.Add | src/pstack/calc/binpack_cache.hpp:21-33 | `add` keeps the earlier entries and stores the value under every key between the items' bounding box and the box size |
| BinPackCache.ComponentwiseAcceptsLexicographic | src/pstack/geo/vector3.hpp:42-75 | an entry the component-wise rule accepts is also accepted by the lexicographic rule |
| BinPackCache.Lookup | src/pstack/calc/binpack_cache.hpp:35-45 | a hit is an entry under the query's key that the rule accepts, and nothing is returned exactly when no entry is accepted |
| BinPackCache.TryGet | src/pstack/calc/binpack_cache.hpp:35-45 | as written: a returned entry sits under the query's key and brackets the query lexicographically, and nothing is returned exactly when no entry under that key does |
| BinPackCache.TryGetFits | src/pstack/calc/binpack_cache.hpp:35-45 | corrected: a returned entry's item bounding box fits in the query, which fits in the entry's box, and nothing is returned exactly when no entry under that key does |
| BinPackCache.AddThenLookup | src/pstack/calc/binpack_cache.hpp:21-45 | after `add`, every query between the bounding box and the box size finds an entry |
| BinPack.EmptyValid | src/pstack/calc/binpack.cpp:88-90 | the empty result is a valid packing of any box |
| BinPack.ValidPackingGrow | src/pstack/calc/binpack.cpp:27-84 | a valid packing stays valid in a larger container |
| BinPack.ScoreSumSameItems | src/pstack/calc/binpack_types.hpp:61-65 | placements with the same items have the same score sum |
| BinPack.TranslateValid | src/pstack/calc/binpack.cpp:77 | translating a valid packing makes it a valid packing of the translated container |
| BinPack.TranslateSound | src/pstack/calc/binpack.cpp:77 | translation keeps a packing sound under either lookup rule, moving its container along |
| BinPack.CombineValid | src/pstack/calc/binpack.cpp:61-74 | the item plus three valid sub-packings in disjoint remainders form a valid packing of the box |
| BinPack.Aabb | src/pstack/calc/binpack.cpp:79-81 | the bounding box is non-negative and contains the far corner of every placement |
| BinPack.AabbLeast | src/pstack/calc/binpack.cpp:79-81 | the bounding box fits in any other non-negative bound of the far corners |
| BinPack.AabbContains | src/pstack/calc/binpack.cpp:79-81 | a valid packing is also valid in its own bounding box |
| BinPack.AabbBounded | src/pstack/calc/binpack.cpp:79-81 | the bounding box of a valid packing fits in the box |
| BinPack.CachedValid | src/pstack/calc/binpack.cpp:37-39 | a result served by the cache is sound for the queried box: under the corrected rule a valid packing of it, under the rule as written a packing with a consistent score drawn from the item list |
| BinPack.AddOk | src/pstack/calc/binpack.cpp:82 | adding a sound packing keeps every cached entry sound for the bounding box it is stored with |
| BinPack.PackImpl | src/pstack/calc/binpack.cpp:27-84 | under the corrected lookup the result is a valid packing of the box: items come from the list, lie inside the box and do not overlap, and the box is afterwards answered by the cache; under the lookup as written only the score sum and the membership of every placed item in the list are kept; either way a pruned box gives the empty result and an unchanged cache |
| BinPack.Memoise | src/pstack/calc/binpack.cpp:77-83 | the stored result is sound at the origin with the same score, and under the corrected lookup the cache then answers the box |
| BinPack.BestOverItems | src/pstack/calc/binpack.cpp:43-47 | the chosen result is sound (valid under the corrected lookup) and is the starting one or strictly better; if no item fits, the result and the cache are unchanged |
| BinPack.BestOverSplits | src/pstack/calc/binpack.cpp:49-59 | the chosen result is sound (valid under the corrected lookup) and is the starting one or strictly better |
| BinPack.Candidate | src/pstack/calc/binpack.cpp:61-74 | the candidate replaces the best only when its wrapped score is strictly higher, with the item at the box corner first, and either way the result is sound |
| BinPack.Assemble | src/pstack/calc/binpack.cpp:61-74 | the item at the box corner plus the translated sub-results form a sound packing (valid under the corrected lookup) with the wrapped total score |
| BinPack.AssembleValid | src/pstack/calc/binpack.cpp:61-74 | the translated sub-packings land inside their disjoint remainders |
| BinPack.AssembleScored | src/pstack/calc/binpack.cpp:61-74 | whatever the geometry of the sub-results, the assembled packing has the wrapped score sum and draws only on the item list |
| BinPack.MinVolume | src/pstack/calc/binpack.cpp:94-100 | the result fits in every item's sorted size and in `INT_MAX` on every axis, and every other such lower bound fits in it |
| BinPack.PruneSound | src/pstack/calc/binpack.cpp:33-35 | a box whose sorted size does not fit the minimum holds no item in any orientation |
| BinPack.PruneAgrees | src/pstack/calc/binpack.cpp:33-35 | on a pruned box the search over all items returns the empty result and the cache unchanged, as the early return does |
| BinPack.PackItems | src/pstack/calc/binpack.cpp:86-103 | no items give the empty result; the score is the wrapped sum of the placed items' scores, each from the list; under the corrected lookup the result is a valid packing of the initial box |
| BinPack.LexicographicLookupServesOversizedPacking | src/pstack/calc/binpack_cache.hpp:40 | the lexicographic test serves a packing to a box it does not fit (see Findings) |

## Left out

- Cancellation (`running`), progress reporting, timing, and the final mesh assembly and scaling of both stackers: these are I/O and user interface, with no effect on placement.
- Mesh rotation, the rotation sets, and rasterisation of triangles into the surface grid: these use floating point. `Voxelize.Voxelize` takes the rasterised surface grid as input, and each part takes its orientations' voxel grids and boxes as input.
- `rotate_min_box` and the min-box rotation of the bin packer's item list: floating point geometry.
- The growth search used by `Stacker.StackPart` and `PartStacker.Round` is the corrected one (`Growth.Enlarge`). The as-written loop bounds are modelled by `Growth.Search` in its two other modes (see Findings).
- Growth.Search: no claim is made that the kept placement is the cheapest in the whole space. The row prune at stacker.cpp:275-277 and PartStacker.cs:206-207 `break`s out of the shell, and the model does the same. Later rows of that shell have a smaller `z` and so a bound that is no larger, and they can hold a cheaper placement. The search is proved sound (a found placement is feasible) and, with the corrected bounds, complete (it finds something iff the part fits somewhere), but not minimal.
- Growth.Search: the volume products `max(x + min, max_x) * ...` are assumed below `INT_MAX` (`VolumeBound`) wherever completeness is claimed. Signed overflow of these products is undefined behaviour in C++ and wraps in C#, and neither case is modelled.
- Growth.ModeOk: the C++ mode assumes the extents fit the `int` loop counters. Otherwise the shell counter itself would overflow.
- PartStacker.Stack: requires every quantity to be at least 1. With a quantity of 0 the C# `Remaining` count goes to -1 at the first placement and never reaches 0 again, so `p` never moves past that part.
- Parts.SortByVolumeDescending: part volumes are integers here, where the source sorts on `double`. Only the ordering matters.
- Carving.Carve: for a carver wider than the grid the model carves nothing, as the C# voxeliser does. The C++ range test wraps around there and the flood fill then reads outside the grid (see Findings); that out-of-bounds read is undefined behaviour and is not modelled.
- Convexify.FillSpan: requires a column of at most `INT_MAX` voxels, because `minV` and `maxV` start at the `int` limits. The three passes are stated on the reference fill `SpanOf`, which `FillSpan` is proved equal to.
- Voxelize.Voxelize: requires non-empty extents.
- The parts-list GUI: the table row deletion (`delete_row`), labels, and the rest of the wxWidgets code are user interface. `PartsList.DeleteSelected` models the property and selection vectors only.
- BinPackCache.Lookup: the cache is a `std::unordered_multimap`, whose order among entries with equal keys is unspecified. The model keeps them in insertion order, which is one order the container may use, and returns the first accepted entry. When several entries under one key are accepted, the source may return a different one of them.
- BinPackTypes.ValidItem: items are required to have every extent at least 1. With a zero extent, one of the remainders left by `split` is the whole box again, the `min_volume` prune lets it through, and the cache is filled only after the recursion returns, so `pack_items_impl` recurses on the same box without end.

## Findings

| source | as written | input that shows it | evidently intended | confidence | as-written member | corrected member |
|---|---|---|---|---|---|---|
| src/pstack/calc/stacker.cpp:272-273 | the row start `s - extent(2) - min_box_z` is computed in `size_t`, so for small `s` it wraps to a huge value; the `int` counter then fails the `size_t` row test at once and whole shells are skipped | empty 2x2x2 space, a 1x1x1 part, limits 1x1x1: the search finds nothing, though the part fits at the origin | start the row at `max(0, s - (extent(2) - min_box_z))` in signed arithmetic, so every shell is searched | medium, not executed | Growth.CppSearchMissesCorner | Growth.CorrectedSearchComplete |
| PartStacker/PartStacker.cs:210 | the column bound is `Space.GetLength(0) - minBZ`, using the z extent of the smallest box on the x axis (the same expression appears in src/pstack/calc/stacker.cpp:279) | empty 2x2x4 space, a 1x1x3 part, limits 1x1x1: no column is examined and the search finds nothing, though the part fits at the origin | bound `x` by `Space.GetLength(0) - minBX` | high, not executed | Growth.CSharpSearchMissesCorner | Growth.CorrectedSearchComplete |
| src/pstack/calc/binpack_cache.hpp:40 | `items_aabb <= box_size && box_size <= cached.box_size` uses the lexicographic `operator<=>` of `vector3`, not `fits` | at the level of the cache: an entry for box 3x5x5 with items spanning 1x5x5, queried with box 2x1x1 (same key), is served, though its item does not fit in 2x1x1. Not shown through `pack_items`: with that single item the prune rejects the 2x1x1 box before the cache is asked | compare component-wise with `fits`; with that rule the packer's result is a valid packing (`BinPack.PackItems` with `Componentwise`) | medium, not executed | BinPackCache.TryGet | BinPackCache.TryGetFits |
| src/pstack/calc/voxelize.cpp:60 | `x > voxels.extent(0) - carver_size` subtracts in `size_t`, so a carver wider than the grid wraps the bound to a huge value and every non-negative corner passes; line 69 then reads `actual_triangles` outside the grid | a 1x1x1 grid and a carver of 2: corner (0, 0, 0) passes, and its block reaches cell (1, 1, 1) | skip corners whose block leaves the grid, as the signed C# test does | medium, not executed | Carving.CppRangeTestAdmitsOversizedCarver | Carving.BlockInGrid |
