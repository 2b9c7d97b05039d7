# Skin: skeletal-animation data of the Assimp importer plugin

This project models `minko::geometry::Skin`, the object the Assimp plugin fills in when it
imports a skinned mesh, and proves properties of that model. A skin holds:

- a fixed number of bones, each listing the vertices it moves and with which weight;
- one buffer of `numBones * 16` scalars per animation frame, holding each bone's 4x4 transform
  at offset `16 * boneId`;
- an animation duration and the derived time factor, which is frames per unit of time.

`reorganizeByVertices` turns the bone-centric influence lists into a dense per-vertex table
(`numVertexBones`, `vertexBones`, `vertexBoneWeights`), one row of `numBones` slots per vertex.
Consumers of the skin enumerate a vertex's influences through `vertexBoneData`, `vertexBoneId`
and `vertexBoneWeight`. `getFrameId` maps a looping animation time to a stored frame.

Modules:

- `BoneInfluence` (value level):
  - the `Bone` datatype;
  - `LastVertexId` as a fold of `std::max` over every listed id;
  - `VertexInfluences`, the specification of one table row: the positive-weight
    `(bone, weight)` pairs naming a vertex, in bone-then-list order;
  - an independent set-based count of those pairs.
- `InfluenceTable`:
  - the flat row layout `SlotIndex(v, j, stride) = v * stride + j`;
  - the row and table predicates;
  - the imperative loops of `reorganizeByVertices` on arrays (`FillRows`, `RecordBone`,
    `RecordEntry`, `MaxCount`). `FillRows`, `RecordBone` and `RecordEntry` are proved against
    `VertexInfluences`; `MaxCount` is proved against `MaxOf`.
- `Matrices`: the 16-scalar block copy done by `matrix`, stated on sequences.
- `FrameTiming`: `fmod`, the frame index, and its periodicity, in exact real arithmetic.
- `Geometry`: the class `Skin` with the source's fields and a `Valid()` invariant. Its methods
  mirror the C++ members.

Bone slots are `seq<Option<Bone>>`, where `None` stands for the `nullptr` the constructor puts
in every slot. The header's bone setter is represented by `Geometry.Skin.SetBone`.

## Model

| member | source | states |
|---|---|---|
| Geometry.Skin.constructor | plugins/assimp/src/minko/geometry/Skin.cpp:31-43 | `numBones` empty bone slots; `numFrames` distinct frame buffers of `numBones * 16` zeros; duration, time factor and max count zero; empty vertex tables; the invariant holds |
| Geometry.NewFrames | plugins/assimp/src/minko/geometry/Skin.cpp:36 | returns `numFrames` fresh, pairwise distinct buffers of the given size, all zero |
| Geometry.Skin.Clear | plugins/assimp/src/minko/geometry/Skin.cpp:45-56 | from any state: no bones, no frames, scalars zeroed, empty vertex tables, and the invariant re-established |
| Geometry.Skin.Duration | plugins/assimp/src/minko/geometry/Skin.cpp:58-66 | refuses exactly the values below 1e-6 with an invalid-argument outcome and changes nothing then; otherwise sets the duration and `timeFactor = numFrames / duration` |
| Geometry.Skin.Matrix | plugins/assimp/src/minko/geometry/Skin.cpp:68-84 | the frame buffer becomes the old one with the 16 scalars copied at `16 * boneId`; reading that bone back gives the value; every other frame is unchanged |
| Matrices.WithBlock | plugins/assimp/src/minko/geometry/Skin.cpp:77-81 | the copied block reads back as written, length is kept, and every position outside the block is unchanged |
| Matrices.WriteThenRead | plugins/assimp/src/minko/geometry/Skin.cpp:77-81 | writing bone b's matrix then reading bone b returns it; reading any other bone returns its old matrix |
| Geometry.Skin.LastVertexId | plugins/assimp/src/minko/geometry/Skin.cpp:134-148 | the nested loops compute `LastVertexId` of the bones |
| Geometry.MaxWithIds | plugins/assimp/src/minko/geometry/Skin.cpp:143-144 | folding a bone's ids into the running maximum gives the maximum of all ids seen so far |
| BoneInfluence.LastVertexIdBounds | plugins/assimp/src/minko/geometry/Skin.cpp:134-148 | every vertex id any bone lists is at most `LastVertexId` |
| BoneInfluence.LastVertexIdAttained | plugins/assimp/src/minko/geometry/Skin.cpp:134-148 | `LastVertexId` is 0 or an id some bone lists; with the bound lemma it is the maximum |
| BoneInfluence.IdsUpToElements | plugins/assimp/src/minko/geometry/Skin.cpp:139-145 | an id is among those visited for the first b bones exactly when one of those bones lists it |
| BoneInfluence.MaxOfIsUpperBound | plugins/assimp/src/minko/geometry/Skin.cpp:127-129 | the `std::max` fold is at least every element |
| BoneInfluence.MaxOfIsAttained | plugins/assimp/src/minko/geometry/Skin.cpp:127-129 | the fold is 0 or equals some element |
| BoneInfluence.MaxOfIsLeast | plugins/assimp/src/minko/geometry/Skin.cpp:127-129 | any common upper bound of the elements bounds the fold |
| Geometry.Skin.ReorganizeByVertices | plugins/assimp/src/minko/geometry/Skin.cpp:86-132 | rebuilds the table with `lastVertexId + 1` rows of `numBones` slots; row v holds exactly `VertexInfluences(bones, v)` then zero filler; each count is the number of positive-weight `(bone, index)` pairs naming v; `maxNumVertexBones` is the largest count and at most `numBones`; bones, frames and timing are untouched |
| BoneInfluence.ExampleInfluences | plugins/assimp/src/minko/geometry/Skin.cpp:86-132 | two bones over three vertices (bone 0 weighs vertices 0 and 1 with 1.0 and 0.4, bone 1 weighs vertices 1 and 2 with 0.6 and 1.0): the last vertex id is 2, vertex 1 is influenced by bone 0 then bone 1, the others by one bone each, and every row fits in two slots |
| Geometry.ReorganizeExample | plugins/assimp/src/minko/geometry/Skin.cpp:86-132 | the same two bones set on a two-bone skin and reorganized: the counts are [1, 2, 1], the longest row is 2, and `vertexBoneData` on vertex 1 gives bone 0 with weight 0.4 then bone 1 with weight 0.6 |
| InfluenceTable.ExampleTable | plugins/assimp/src/minko/geometry/Skin.cpp:108-131 | any three-row, two-slot table whose rows hold the two-bone example's influences has counts [1, 2, 1] with maximum 2, and vertex 1's slots, at flat positions 2 and 3, hold bone 0 with weight 0.4 then bone 1 with weight 0.6 |
| Geometry.BuildTable | plugins/assimp/src/minko/geometry/Skin.cpp:93-129 | freshly allocated table with every row holding that vertex's influences; the table is well formed; the counts equal the pair counts; the returned maximum is the largest count and at most the number of bones |
| InfluenceTable.FillRows | plugins/assimp/src/minko/geometry/Skin.cpp:97-125 | after the zero-filled allocation and the loop over all bones, every row holds `VertexInfluences` |
| InfluenceTable.RecordBone | plugins/assimp/src/minko/geometry/Skin.cpp:103-124 | the loop over bone b's entries turns rows holding the influences of bones before b into rows holding those of bone b too |
| InfluenceTable.RecordEntry | plugins/assimp/src/minko/geometry/Skin.cpp:109-123 | visiting one entry of bone b turns rows holding the influences found before it into rows holding those found up to and including it: a positive weight lands in the vertex's next free slot and bumps its count, any other entry leaves the rows as they were |
| InfluenceTable.MaxCount | plugins/assimp/src/minko/geometry/Skin.cpp:127-129 | the loop returns the maximum of the counts |
| InfluenceTable.ZeroTableHoldsNothing | plugins/assimp/src/minko/geometry/Skin.cpp:97-99 | a zero-filled table holds the empty influence list in every row |
| InfluenceTable.RecordInfluence | plugins/assimp/src/minko/geometry/Skin.cpp:116-123 | writing bone b and the weight at `vertexArraysIndex(vId, j)` and bumping `counts[vId]` keeps every other row unchanged and extends row vId by exactly that influence |
| InfluenceTable.SlotIndexInRange | plugins/assimp/src/minko/geometry/Skin.cpp:98-99 | slot j < stride of vertex v < n lies inside the `n * stride` table |
| InfluenceTable.SlotIndexInjective | plugins/assimp/src/minko/geometry/Skin.cpp:120 | two slot positions coincide exactly when vertex and slot coincide, so writing one row never touches another |
| InfluenceTable.EmptyTableShaped | plugins/assimp/src/minko/geometry/Skin.cpp:53-55 | the emptied table is well formed |
| InfluenceTable.MatchedTableIsShaped | plugins/assimp/src/minko/geometry/Skin.cpp:101-125 | a table whose rows hold the influences has every meaningful slot naming a bone below `numBones` with a positive weight, and zeros elsewhere |
| InfluenceTable.MatchedCountsArePairCounts | plugins/assimp/src/minko/geometry/Skin.cpp:108-118 | in such a table each count is the number of positive-weight pairs naming the vertex |
| BoneInfluence.InfluenceCountIsPairCount | plugins/assimp/src/minko/geometry/Skin.cpp:108-118 | the length of `VertexInfluences` equals the size of the independently defined set of `(bone, index)` pairs naming v with a positive weight |
| BoneInfluence.InfluencesUpToCount | plugins/assimp/src/minko/geometry/Skin.cpp:101-125 | after the first b bones, the number of influences is the number of matching pairs among those bones |
| BoneInfluence.BoneInfluencesCount | plugins/assimp/src/minko/geometry/Skin.cpp:108-124 | within one bone, the number of influences is the number of matching entries |
| BoneInfluence.BonePairsStep | plugins/assimp/src/minko/geometry/Skin.cpp:109-118 | one more entry adds exactly its own pair when it names v with a positive weight and nothing otherwise |
| BoneInfluence.PairsUpToStep | plugins/assimp/src/minko/geometry/Skin.cpp:101-125 | one more bone adds exactly its own pairs, disjoint from the earlier ones |
| BoneInfluence.InfluencesAreValid | plugins/assimp/src/minko/geometry/Skin.cpp:109-123 | every influence names an existing bone and carries a positive weight |
| BoneInfluence.InfluencesInBoneOrder | plugins/assimp/src/minko/geometry/Skin.cpp:101-125 | a row lists its bones in non-decreasing bone order, the order of the outer loop |
| BoneInfluence.NoInfluenceBeyondLastVertex | plugins/assimp/src/minko/geometry/Skin.cpp:93-99 | a vertex beyond `lastVertexId` has no influence, so `lastVertexId + 1` rows suffice |
| BoneInfluence.DistinctIdsFit | plugins/assimp/src/minko/geometry/Skin.cpp:116-120 | when no bone lists a vertex twice, every row fits in `numBones` slots and lists strictly increasing bones |
| BoneInfluence.DistinctBoneInfluencesAtMostOne | plugins/assimp/src/minko/geometry/Skin.cpp:108-124 | a bone without repeated ids gives each vertex at most one influence |
| BoneInfluence.ProgressStep | plugins/assimp/src/minko/geometry/Skin.cpp:108-124 | visiting one entry appends its influence on v if it names v with a positive weight, and nothing otherwise |
| BoneInfluence.ProgressWithinTotal | plugins/assimp/src/minko/geometry/Skin.cpp:116-118 | a partial count never exceeds the vertex's final count, so `j` stays below `numBones` |
| Geometry.Skin.GetFrameId | plugins/assimp/src/minko/geometry/Skin.cpp:150-159 | frame 0 while no duration is set, otherwise an index below `numFrames` |
| FrameTiming.FMod | plugins/assimp/src/minko/geometry/Skin.cpp:156 | `fmod` of a non-negative time by a positive duration lies in `[0, duration)` |
| FrameTiming.FModUnique | plugins/assimp/src/minko/geometry/Skin.cpp:156 | any split of x into a whole multiple of y plus a rest in `[0, y)` has `fmod` as its rest |
| FrameTiming.FModPeriodic | plugins/assimp/src/minko/geometry/Skin.cpp:156 | adding one duration to the time leaves `fmod` unchanged |
| FrameTiming.FrameId | plugins/assimp/src/minko/geometry/Skin.cpp:150-159 | 0 when the duration is below 1e-6, otherwise a frame index below `numFrames` |
| FrameTiming.FrameIdPeriodic | plugins/assimp/src/minko/geometry/Skin.cpp:150-159 | once a duration is set, the frame shown at `time + duration` is the frame shown at `time` |
| FrameTiming.FrameIdWithoutWrap | plugins/assimp/src/minko/geometry/Skin.cpp:156-158 | with the time factor `numFrames / duration` set by `duration`, the final `% numFrames` never changes the frame in exact arithmetic |
| FrameTiming.FrameIdExample | plugins/assimp/src/minko/geometry/Skin.cpp:150-159 | four frames over two time units: times 0.5, 2.5 and 1.999 show frames 1, 1 and 3 |
| Geometry.Skin.VertexBoneData | plugins/assimp/src/minko/geometry/Skin.cpp:161-171 | returns both halves of the slot, agreeing with `VertexBoneId` and `VertexBoneWeight`; a meaningful slot names an existing bone with a positive weight |
| Geometry.Skin.VertexBoneId | plugins/assimp/src/minko/geometry/Skin.cpp:173-177 | below the vertex's count, a bone index below `numBones`; past it, the zero filler |
| Geometry.Skin.VertexBoneWeight | plugins/assimp/src/minko/geometry/Skin.cpp:179-183 | below the vertex's count, a positive weight; past it, the zero filler |
| Geometry.Skin.DisposeBones | plugins/assimp/src/minko/geometry/Skin.cpp:185-192 | no bones are left; frames and the vertex table are kept and the invariant holds |

## Left out

- `Skin.hpp` is not part of this model. Three of its members are assumed:
  - `vertexArraysIndex(v, j)` is `v * numBones + j` (`InfluenceTable.SlotIndex`). This is the
    layout implied by the `numVertices * numBones` allocations;
  - `numFrames()` is the number of frame buffers;
  - the bone setter is modelled by `Geometry.Skin.SetBone`.
- Floating point is modelled as exact reals:
  - `float` scalars, `1e-6f` and `floorf` become `real`, `Epsilon = 0.000001` and `.Floor`;
  - rounding of `numFrames() / _duration` and of `t * _timeFactor` is not modelled.
  - `FrameTiming.FrameIdWithoutWrap` therefore proves that the final modulo is redundant only
    in exact arithmetic. With float rounding it is what keeps the index in range.
- Integer widths (`unsigned short` vertex ids, `unsigned int` counts and indices) are modelled
  as unbounded `nat`. Wrap-around of `numVertices * numBones` and narrowing casts are not modelled.
- The undefined behaviour below is excluded by preconditions rather than modelled:
  - `Geometry.Skin.GetFrameId` requires `time >= 0`. The cast of a negative `floorf` result to
    `unsigned int` is undefined.
  - `Geometry.Skin.GetFrameId` requires at least one frame once a duration is set, because
    `% numFrames()` by zero is undefined.
- `Geometry.Skin.ReorganizeByVertices` requires:
  - every bone slot to be populated (the C++ dereferences each pointer);
  - the slot count to equal `numBones`, because the row length is `_bones.size()` while the index
    uses `numBones`;
  - every vertex's positive-weight entries to fit in one row (`InfluenceFits`). Otherwise the
    C++ writes past the row into the next vertex's slots or past the end of the buffer.
    `BoneInfluence.DistinctIdsFit` derives this fit from the natural condition that no bone
    lists a vertex twice.
- `Geometry.Skin.Matrix` requires `frameId < numFrames` and `boneId < numBones`, the
  `DEBUG_SKINNING` assertion.
- `Geometry.Skin.VertexBoneData`, `Geometry.Skin.VertexBoneId` and
  `Geometry.Skin.VertexBoneWeight` require a vertex and slot inside the table. Otherwise the C++
  reads another vertex's slot, or past the end of the buffer.
- Bones are held as values, copied when `Geometry.Skin.SetBone` stores them. The shared ownership
  of `Bone` pointers is not modelled, nor are changes made to a shared `Bone` after it is set,
  which the C++ would see when `reorganizeByVertices` reads the lists.
- `shared_from_this()` return values (used for chaining) are dropped.
- The memory effects of `shrink_to_fit` and `vector::clear` are dropped. `memcpy` is modelled
  as the element-wise block copy `Matrices.WithBlock`.
- `Node`, `Bone` internals beyond the two id/weight lists, and `Matrix4x4` beyond its 16
  scalars are not modelled.
