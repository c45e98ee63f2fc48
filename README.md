# Voxel world of assignment07, and glow's string helpers

This project models, in Dafny, the chunked voxel world of the
`assignment07` game and the string helpers of the glow library.

**The world** is a sparse map from chunk origin to chunk. A chunk is a
cube of 32 x 32 x 32 blocks, and every block holds a material index:
0 is air, a positive index is an opaque (solid) material and a negative
index is a translucent one. The model covers:

- `chunkPos`, which rounds a world position down to its chunk origin
  (floor division, written in the source with C++'s truncating `%`);
- block queries, chunk creation and procedural filling (`ensureChunkAt`,
  `generate`), and `clearChunks`;
- the two material registries and their lookups;
- `markDirty`, which invalidates the mesh caches of the chunks around an
  edited block;
- the voxel ray cast `rayCast`, which walks along a ray one block face at
  a time;
- for each chunk, the mesh builder (`buildMeshFor`, `queryMeshes`), the
  fake ambient occlusion `aoAt` and `markDirty`.

**The game glue** in `Assignment07.cc` is modelled as well: the block
edit on a left click (remove with Ctrl, pick with Shift, place
otherwise), `rebuildWorld`, which creates the chunks around the player,
and the material filter of the three render passes.

**The string helpers** are `endswith`, `fileEndingOf`, `pathOf`,
`toLower` and `toUpper`.

Modules, one per file:

- `Wrappers` (`wrappers.dfy`): `Option`.
- `Coords` (`coords.dfy`): integer vectors, `chunkPos`, the flat block
  index inside a chunk.
- `Blocks` (`blocks.dfy`): material classes, the block view of a world
  (`Snapshot`), reads and writes on it, terrain generation, materials.
- `Marking` (`marking.dfy`): chunks as values (blocks plus mesh cache).
  This is the value-level meaning of `ensureChunkAt`, `markDirty` and a
  block write.
- `Meshing` (`meshing.dfy`): the vertex lists and mesh tables that
  `buildMeshFor` and `queryMeshes` produce, and `aoAt`.
- `RayMath` (`raymath.dfy`): the ray walk on exact reals, its
  termination, and the hit it reports.
- `Voxel` (`voxel.dfy`): the classes `Chunk` and `World`, with the
  source's loops.
  - A chunk's blocks are a `seq<int>` field. Replacing one element of
    it stands for the source's in-place write into `mBlocks`. Its dirty
    flag and meshes are fields too.
  - The world's chunk map and material registries are fields.
  - Every method is proved to leave the state that the functions of
    `Marking`, `Meshing` and `RayMath` describe. The ghost field
    `World.state` holds that state.
- `Game` (`game.dfy`): the parts of `Assignment07.cc` listed above.
- `StrUtils` (`strutils.dfy`): `str_utils.hh`.

The terrain noise is a parameter `gen` of type `Terrain`, a total map
from world positions to the material the generator gives each of them. Window events, cameras and the
mouse ray arrive as parameters as well: `OnMouseButton` takes the
`RayHit` and the modifier keys.

## Model

| member | source | states |
|---|---|---|
| Coords.ChunkCoord | assignment07/World.hh:70 | one axis of `chunkPos` is a multiple of 32, at most the coordinate, and less than 32 below it, negative coordinates included |
| Coords.ChunkPos | assignment07/World.hh:67-74 | the result is a chunk origin, and its chunk contains `p` |
| Coords.ChunkCoordUnique | assignment07/World.hh:70 | any multiple of 32 within 31 below `a` is the chunk coordinate of `a` |
| Coords.ChunkCoordExamples | assignment07/World.hh:70-72 | -1 and -32 go to -32, -33 to -64, 0 and 31 to 0, 32 to 32 |
| Coords.ChunkPosUnique | assignment07/World.hh:67-74 | the chunk origin of `p` is the only aligned point whose chunk contains `p` |
| Coords.ChunkPosOfAligned | assignment07/World.hh:67-74 | an aligned position is its own chunk origin |
| Coords.ChunkPosIdempotent | assignment07/World.hh:67-74 | `chunkPos(chunkPos(p)) == chunkPos(p)` |
| Coords.ChunkPosPerAxis | assignment07/World.hh:70-72 | each axis of the result depends only on the same axis of the input |
| Coords.ChunkCoordMonotone | assignment07/World.hh:70 | the chunk coordinate is monotone |
| Blocks.BlockIn | assignment07/World.cc:209-220 | a position whose chunk does not exist reads as air |
| Blocks.EmptyIsAir | assignment07/World.cc:209-220 | in a world without chunks every position reads as air |
| Blocks.WriteBlock | assignment07/World.cc:222-230 | a write into an existing chunk creates no chunk and keeps the world well formed |
| Blocks.ReadAfterWrite | assignment07/World.cc:222-230 | the written position reads the new material, and every other position reads as before |
| Blocks.Generated | assignment07/World.cc:154-196 | `generate` fills exactly 32^3 blocks |
| Blocks.GeneratedUpTo | assignment07/World.cc:154-196 | the first `n` blocks `generate` writes hold the generator's material for their world positions, in flat index order |
| Blocks.GeneratedReads | assignment07/World.cc:154-196 | in a generated chunk, every world position reads the generator's material for it |
| Blocks.GrownTransitive | assignment07/World.cc:65-78 | creating chunks twice is creating chunks |
| Blocks.GrownBlocks | assignment07/World.cc:65-78 | creating chunks changes no block of an existing chunk, and a new chunk reads as generated |
| Blocks.FirstNamed | assignment07/World.cc:264-270 | the search finds the first material of that name, and finds nothing exactly when none has it |
| Marking.GrownByBlocks | assignment07/World.cc:65-78 | on whole worlds: existing blocks are kept and new chunks read as generated |
| Marking.MarkOneEvolves | assignment07/Chunk.cc:305-310 | marking one chunk only marks: no block changes and no chunk disappears |
| Marking.EvolvesTransitive | assignment07/World.cc:65-89 | a sequence of chunk creations and markings is again one |
| Marking.EnsureAtEffect | assignment07/World.cc:65-89 | `ensureChunkAt(p)` adds exactly the chunk of `p`, changes no existing block, and leaves a new chunk generated and dirty |
| Marking.EnsureAtKeys | assignment07/World.cc:65-89 | the chunks afterwards are those before plus the chunk of `p` |
| Marking.EnsureAtIdempotent | assignment07/World.cc:67-69 | a second call for a position of the same chunk changes nothing |
| Marking.MarkPartialStep | assignment07/World.cc:81-88 | one iteration of the neighbour loop marks the chunk at offset `(dx, dy, dz)`, if it exists, and nothing else |
| Marking.MarkPartialDone | assignment07/World.cc:81-88 | after all 27 offsets, every existing chunk in the 3x3x3 block around the new chunk is marked |
| Marking.BoxCornerScaled | assignment07/World.cc:236-240 | the corner visited is `p + (dx, dy, dz) * rad` |
| Marking.RoundsCornersHas | assignment07/World.cc:234-248 | the chunk of every corner of every round is among those `markDirty` covers |
| Marking.RadiusOneCoversNeighbours | assignment07/World.cc:232-249 | with radius 1, every position within 1 of `p` on each axis lies in one of the eight corner chunks |
| Marking.MarkCornerAtEffect | assignment07/World.cc:240-244 | one corner creates at most the chunk of `np` and leaves it dirty |
| Marking.RoundsDoneNext | assignment07/World.cc:234-248 | round `k` is the eight corners at radius `rad - 32k`, after the earlier rounds |
| Marking.RoundCountUnique | assignment07/World.cc:234-247 | a loop that stops at the first negative radius has run `RoundCount(rad)` rounds |
| Marking.RoundCount | assignment07/World.cc:234-247 | no round for a negative radius; otherwise the last round has a radius of at least 0 and the next would be negative |
| Marking.CornersDoneKeys | assignment07/World.cc:236-245 | the corners of a round create the chunks of their corners and no others |
| Marking.CornersDoneEvolves | assignment07/World.cc:236-245 | a round only creates and marks chunks |
| Marking.CornersDoneMarked | assignment07/World.cc:236-245 | after a round, the chunk of each of its corners is dirty |
| Marking.RoundsDoneKeys | assignment07/World.cc:234-248 | the rounds create the chunks of their corners and no others |
| Marking.RoundsDoneEvolves | assignment07/World.cc:234-248 | the rounds only create and mark chunks |
| Marking.RoundsDoneMarked | assignment07/World.cc:234-248 | after the rounds, the chunk of each corner is dirty |
| Marking.MarkDirtyEffect | assignment07/World.cc:232-249 | a negative radius changes nothing; otherwise exactly the corner chunks are added, all of them dirty, and no block changes |
| Marking.MarkDirtyOneCoversNeighbours | assignment07/World.cc:232-249 | `markDirty(p, 1)`, the call after an edit, leaves every chunk holding a position within 1 of `p` present and dirty |
| Marking.MarkDirtyRadiusGap | assignment07/World.hh:89-90 | no corner of `markDirty((15,15,15), 17)` lies in the chunk that holds `p`, although the documented set `RadiusChunks` contains that chunk |
| Marking.MarkDirtyRadiusGapExisting | assignment07/World.cc:232-249 | the documented promise, "all blocks in a given radius", fails: when the eight corner chunks and the chunk at the origin exist, `markDirty((15,15,15), 17)` leaves the chunk holding `p` exactly as it was |
| Marking.AxisChunksIff | assignment07/World.hh:89-90 | on one axis, the enumerated chunk coordinates are exactly the multiples of 32 from the start up to `hi` |
| Marking.RadiusChunksComplete | assignment07/World.hh:89-90 | the documented `markDirty` covers the chunk of every position within `rad` of `p` on each axis |
| Marking.RadiusChunksSound | assignment07/World.hh:89-90 | every chunk the documented `markDirty` covers holds a position within `rad` of `p` |
| Marking.MarkDirtyWithinRadius | assignment07/World.cc:234-243 | every corner chunk `markDirty` visits lies within the radius, since its corners lie at most `rad` from `p` |
| Marking.MarkDirtyRadiusOneExact | assignment07/World.cc:234-243 | with radius 1, the corner chunks are exactly the chunks within the radius |
| Marking.CornersDoneExisting | assignment07/World.cc:236-245 | when every corner chunk exists, a round creates no chunk and marks exactly its corner chunks |
| Marking.RoundsDoneExisting | assignment07/World.cc:234-248 | when every corner chunk exists, the rounds create no chunk and mark exactly their corner chunks |
| Marking.MarkDirtyExisting | assignment07/World.cc:232-249 | when every corner chunk exists, `markDirty` creates no chunk, marks the corner chunks and leaves every other chunk as it was |
| Marking.MarkDirtyExistingWithinRadius | assignment07/World.cc:232-249 | when every corner chunk exists, `markDirty` leaves every chunk outside the radius as it was |
| Marking.MarkDirtyRadiusOneExisting | assignment07/World.cc:232-249 | on a world holding every chunk within 1 of `p`, `markDirty(p, 1)` marks exactly those chunks and changes nothing else |
| Marking.SetAtReads | assignment07/World.cc:222-230 | after the write, `p` reads the new material and every other position reads as before |
| Marking.SetAtKeepsCaches | assignment07/World.cc:222-230 | the write itself changes no mesh cache and creates no chunk |
| Marking.BlocksOfNewCache | assignment07/Chunk.cc:305-310 | replacing a chunk's cache leaves every block of the world as it is |
| Meshing.NoFaceAgainstSolid | assignment07/Chunk.cc:161-162 | no face is emitted towards a solid neighbour |
| Meshing.NoFaceInsideTranslucent | assignment07/Chunk.cc:164-165 | no face is emitted between two blocks of the same translucent material |
| Meshing.FaceTowardsAir | assignment07/Chunk.cc:161-165 | a face towards air is always emitted, for a translucent block too |
| Meshing.DirFacesTopOnly | assignment07/Chunk.cc:155-171 | of the six directions, only the kept +Z face pushes vertices |
| Meshing.FacesBeforeTop | assignment07/Chunk.cc:155-171 | the first five directions of the loop push nothing |
| Meshing.BlockVerticesTopOnly | assignment07/Chunk.cc:149-171 | a block contributes its three top corners when it has the material and its top neighbour keeps the face, and nothing otherwise |
| Meshing.VerticesUpToStep | assignment07/Chunk.cc:143-152 | the block at `(x, y, z)` extends the list in `z, y, x` order |
| Meshing.VerticesUpToEmpty | assignment07/Chunk.cc:280-281 | the list is empty (the null mesh) exactly when no block of the material shows its top face |
| Meshing.BlockVerticesMembers | assignment07/Chunk.cc:168-171 | a block's vertices are exactly the corners of its shown top face |
| Meshing.VerticesUpToSound | assignment07/Chunk.cc:143-171 | every vertex in the list is a top corner of a block of the material that shows its top face |
| Meshing.VerticesUpToComplete | assignment07/Chunk.cc:143-171 | every top corner that such a block shows is in the list |
| Meshing.ChunkVerticesCode | assignment07/Chunk.cc:169-171 | every vertex carries the +Z face code `s * (dir + 1) == 3` |
| Meshing.MeshTableKeys | assignment07/Chunk.cc:74-92 | a material gets a mesh exactly when it is not air and some block of it shows a face |
| Meshing.MaterialsInStep | assignment07/Chunk.cc:82-85 | the materials seen grow by the current block's material unless it is air |
| Meshing.MeshTableUpToStep | assignment07/Chunk.cc:82-91 | the first block of a new material adds its mesh when non-empty; later blocks change nothing |
| Meshing.MeshTableUpToAll | assignment07/Chunk.cc:70-92 | the table starts empty, and after all blocks it is the chunk's mesh table |
| Meshing.AoAsWrittenUnoccludedIsDark | assignment07/Chunk.cc:295-301 | as written, an unoccluded corner gets 0, darker than a corner with one solid diagonal (2/3) |
| Meshing.AoCorrectsOnlyUnoccluded | assignment07/Chunk.cc:295-301 | the corrected brightness differs from the written one only when no sample is solid |
| Meshing.AoMonotone | assignment07/Chunk.cc:295-301 | more solid samples never brighten a corner, and the brightness lies in [0, 1] |
| Meshing.AoSamplesLeaveChunk | assignment07/Chunk.cc:290-294 | at local (0, 0, 0), the chunk-local samples of `aoAt` leave the chunk: one has the flat index of local (31, 0, 0), the other a negative index |
| Meshing.LocalNeighbourLeavesChunk | assignment07/Chunk.cc:161-164 | the chunk-local neighbour `n + p` of a border block lies outside the chunk; its flat index is 32^3, one past the end |
| RayMath.ChooseAxis | assignment07/World.cc:295-312 | the walk steps on one of the three axes |
| RayMath.ChooseAxisFirstMinimum | assignment07/World.cc:295-312 | the chosen axis has the least boundary distance; ties go to X, then Y |
| RayMath.StepAxisIsUnitStep | assignment07/World.cc:297-311 | one step moves the voxel by the direction's sign on the chosen axis only |
| RayMath.GapStart | assignment07/World.cc:280-291 | at the start, the distance to the next boundary is between 0 and `1/abs(d)` |
| RayMath.GapAfterMove | assignment07/World.cc:325 | moving by `t * d` shrinks an axis' boundary distance by `t` |
| RayMath.GapAfterStep | assignment07/World.cc:299-325 | stepping the voxel on an axis lengthens its boundary distance by `1/abs(d)` |
| RayMath.AxisInvBound | assignment07/World.cc:288-327 | while less than `r` has been travelled, an axis has been stepped on at most `1 + abs(d) * r` times |
| RayMath.AdvanceIsUnitStep | assignment07/World.cc:290-312 | an iteration moves to a face-adjacent voxel, and the sign-corrected normal points back |
| RayMath.AdvanceOnRay | assignment07/World.cc:325-326 | the position stays on the ray: after travelling `t` it is `pos + t * dir` |
| RayMath.AdvanceWalking | assignment07/World.cc:288-327 | every iteration keeps the per-axis invariant, counts one step and travels a non-negative distance |
| RayMath.WalkingBound | assignment07/World.cc:288-327 | while the range lasts, the step counts are bounded, so the loop ends |
| RayMath.StepsFromFirstStop | assignment07/World.cc:288 | the loop stops at the first probe that reaches a non-air block or uses up the range |
| RayMath.CastStepsFirstStop | assignment07/World.cc:288 | the number of iterations `rayCast` runs is the first at which it stops |
| RayMath.CastStepsUnique | assignment07/World.cc:288 | any iteration count at which the loop first stops is that number |
| RayMath.NormalPointsBack | assignment07/World.cc:333 | after at least one step, blockPos + hitNormal is the voxel visited before, and the normal is non-zero |
| RayMath.CastFacts | assignment07/World.cc:276-336 | the hit, its block and blockPos agree; a miss uses up the range; every earlier voxel is air; the normal is zero exactly for a hit in the start voxel, and otherwise leads back into air |
| RayMath.CastStartsInBlock | assignment07/World.cc:282-288 | a ray that starts inside a non-air block hits it at once, with a zero normal |
| Voxel.Chunk.constructor | assignment07/Chunk.cc:20-32 | a new chunk holds `size^3` air blocks, is dirty and has no meshes |
| Voxel.Chunk.QueryBlock | assignment07/Chunk.cc:312-318 | the local block or the world's answer: either way the world's block at `w` |
| Voxel.Chunk.BuildMeshFor | assignment07/Chunk.cc:136-288 | null exactly when the vertex list is empty; otherwise the vertex list of the material, with neighbours read through world queries |
| Voxel.Chunk.BuildMeshSlab | assignment07/Chunk.cc:143-145 | the `y` and `x` loops extend the list by slice `z` |
| Voxel.Chunk.BuildMeshRow | assignment07/Chunk.cc:145-152 | the `x` loop extends the list by row `(y, z)` |
| Voxel.Chunk.BuildMeshAt | assignment07/Chunk.cc:147-171 | the block at `(x, y, z)` extends the list by its faces when it has the material, and leaves it otherwise |
| Voxel.Chunk.BlockFaces | assignment07/Chunk.cc:155-171 | the direction loop appends the block's kept faces |
| Voxel.Chunk.QueryMeshes | assignment07/Chunk.cc:64-97 | a clean chunk returns its cache; a dirty one rebuilds the mesh table, caches it and becomes clean; no block changes |
| Voxel.Chunk.StoreMeshes | assignment07/Chunk.cc:90-96 | the table is cached and the chunk is clean |
| Voxel.Chunk.BuildMeshes | assignment07/Chunk.cc:70-92 | the block loops yield the chunk's mesh table |
| Voxel.Chunk.BuildMeshesSlab | assignment07/Chunk.cc:74-92 | the loops for slice `z` extend the table and the set of built materials |
| Voxel.Chunk.BuildMeshesRow | assignment07/Chunk.cc:76-92 | the loop for row `(y, z)` extends the table and the set of built materials |
| Voxel.Chunk.BuildMeshesAt | assignment07/Chunk.cc:77-91 | the block at `(x, y, z)` extends the table and the set of built materials |
| Voxel.Chunk.AoAt | assignment07/Chunk.cc:290-302 | the brightness lies in [0, 1]; 1 exactly when no sample is solid, 0 exactly when both sides are solid; the samples are world queries rather than the chunk-local reads of the source (see Findings) |
| Voxel.Chunk.MarkDirty | assignment07/Chunk.cc:305-310 | the chunk is dirty with no cached meshes, and its blocks stay |
| Voxel.World.ViewWellFormed | assignment07/World.hh:28-31 | every chunk of a valid world sits at a chunk origin and holds 32^3 blocks |
| Voxel.World.constructor | assignment07/World.hh:25-38 | an empty world: no chunks and no materials |
| Voxel.World.QueryChunk | assignment07/World.cc:199-207 | null exactly when no chunk contains `p`; otherwise the chunk at `chunkPos(p)` |
| Voxel.World.QueryBlock | assignment07/World.cc:209-220 | the world's block at `p`, and air when its chunk does not exist |
| Voxel.World.AddOpaqueMat | assignment07/World.cc:98-107 | appends a material with index `size + 1` and shader "opaque", which its index then finds |
| Voxel.World.AddTranslucentMat | assignment07/World.cc:109-118 | appends a material with index `-(size + 1)` and shader "translucent", which its index then finds |
| Voxel.World.SetUpMaterials | assignment07/World.cc:28-63 | appends grass, rock, sand, snow (opaque) and water (translucent, water shader) with consecutive indices |
| Voxel.World.Init | assignment07/World.cc:19-26 | sets up exactly these materials |
| Voxel.World.GetMaterialFromIndex | assignment07/World.cc:251-260 | found exactly for `1..N` or `-1..-M`, never for air; the material found has that index |
| Voxel.World.MaterialIndexRoundTrip | assignment07/World.cc:98-118 | every registered material is found again under its own index |
| Voxel.World.GetMaterialFromName | assignment07/World.cc:262-274 | the first opaque material of that name, else the first translucent one, else nothing; a found material has that name |
| Voxel.World.ClearChunks | assignment07/World.cc:91-96 | no chunks remain, and every position reads as air |
| Voxel.World.EnsureChunkAt | assignment07/World.cc:65-89 | the new state is `EnsureAt` of the old, and the chunk of `p` exists |
| Voxel.World.CreateChunk | assignment07/World.cc:71-78 | a fresh chunk at `cp` holding the generated blocks |
| Voxel.World.AddChunk | assignment07/World.cc:71-78 | a new chunk at `cp` is registered, and the state gains `cp` with freshly generated blocks |
| Voxel.World.RegisterChunk | assignment07/World.cc:74-75 | the chunk map gains exactly this chunk |
| Voxel.World.MarkNeighbours | assignment07/World.cc:80-88 | the neighbour loop leaves `MarkPartial` after all 27 offsets |
| Voxel.World.MarkNeighbourSlab | assignment07/World.cc:82-88 | the `dy` loop for one `dz` |
| Voxel.World.MarkNeighbourRow | assignment07/World.cc:83-88 | the `dx` loop for one `dy`, `dz` |
| Voxel.World.MarkChunkOf | assignment07/World.cc:85-87 | marks the chunk holding `p` if it exists, and nothing otherwise |
| Voxel.World.MarkRegistered | assignment07/World.cc:87 | marks this one chunk |
| Voxel.World.MarkDirty | assignment07/World.cc:232-249 | the new state is `MarkDirtyAt` of the old |
| Voxel.World.MarkDirtyRound | assignment07/World.cc:236-245 | the eight corners at one radius |
| Voxel.World.MarkCornerStep | assignment07/World.cc:236-245 | corner `i` of a round |
| Voxel.World.MarkCorner | assignment07/World.cc:240-244 | `ensureChunkAt(np)`, then the chunk of `np` is marked |
| Voxel.World.SetBlock | assignment07/World.cc:222-230 | `queryBlockMutable(p).mat = m`: ensures the chunk, then writes the block |
| Voxel.World.WriteRegistered | assignment07/World.cc:226-229 | the write through the chunk reference |
| Voxel.World.Generate | assignment07/World.cc:140-197 | every block holds the generator's material for its world position |
| Voxel.World.GenerateRow | assignment07/World.cc:156-196 | one row is filled, and the later blocks are untouched |
| Voxel.World.RayCast | assignment07/World.cc:276-336 | the hit is `Cast` of the world's blocks, whose properties `RayMath.CastFacts` states |
| Voxel.World.RayIteration | assignment07/World.cc:288-327 | one iteration moves to the next probe of the walk, with its normal and the world's block there |
| Voxel.World.RayStep | assignment07/World.cc:290-326 | the stepping part of one iteration is `Advance` |
| Voxel.World.BlockVia | assignment07/World.cc:314-322 | the cached chunk, or a new query, gives the world's block at `ipos` |
| Game.PassFilter | assignment07/Assignment07.cc:214-218 | translucent materials are drawn only in the transparent pass, and opaque ones only in the opaque and shadow passes |
| Game.PassMeshes | assignment07/Assignment07.cc:209-218 | a pass draws exactly the meshes of the table whose material it accepts |
| Game.MeshInOneColourPass | assignment07/Assignment07.cc:214-218 | every mesh of a chunk is in exactly one of the opaque and transparent passes, and is in the shadow pass exactly when in the opaque one |
| Game.EditFor | assignment07/Assignment07.cc:532-555 | a click on a hit edits; Ctrl removes the hit block, Shift picks its material, otherwise the current material is placed at blockPos + hitNormal |
| Game.ApplyEditEffect | assignment07/Assignment07.cc:532-559 | the edited position reads the written material; every other existing position is unchanged; every chunk within 1 of the edit exists and is dirty |
| Game.PlaceIntoAir | assignment07/Assignment07.cc:549-553 | a placement after a ray cast that left its start voxel goes into an air block |
| Game.OnMouseButton | assignment07/Assignment07.cc:525-565 | handled exactly on a left press on a hit; the world becomes `ApplyEdit` of the edit, and Shift replaces the current material |
| Game.RowDoneHas | assignment07/Assignment07.cc:147-148 | the `x` loop adds exactly the chunks of its positions |
| Game.RowDoneEvolves | assignment07/Assignment07.cc:147-148 | the `x` loop only creates and marks chunks |
| Game.SlabDoneHas | assignment07/Assignment07.cc:146-148 | the `y` loop adds exactly the chunks of its positions |
| Game.SlabDoneEvolves | assignment07/Assignment07.cc:146-148 | the `y` loop only creates and marks chunks |
| Game.BoxDoneHas | assignment07/Assignment07.cc:145-148 | the `z` loop adds exactly the chunks of its positions |
| Game.BoxDoneEvolves | assignment07/Assignment07.cc:145-148 | the `z` loop only creates and marks chunks |
| Game.BoxHasExactly | assignment07/Assignment07.cc:145-148 | the three nested ranges reach exactly the offsets with abs(x), abs(z) at most `rad` and abs(y) at most 32 |
| Game.RebuiltChunks | assignment07/Assignment07.cc:136-149 | after `rebuildWorld`, a chunk exists exactly when it holds `refPos + d` for an offset `d` of the box |
| Game.RebuiltFresh | assignment07/Assignment07.cc:136-149 | every chunk afterwards is freshly generated and dirty |
| Game.RebuildWorld | assignment07/Assignment07.cc:136-149 | the world is cleared, and then holds exactly `Rebuilt` |
| Game.RebuildBox | assignment07/Assignment07.cc:145-148 | the `z` loop on a cleared world |
| Game.RebuildSlab | assignment07/Assignment07.cc:146-148 | the `y` loop for one `z` |
| Game.RebuildRow | assignment07/Assignment07.cc:147-148 | the `x` loop for one `y`, `z` |
| StrUtils.RFind | libs/glow/src/glow/common/str_utils.hh:21-23 | `rfind`: the last occurrence, or `npos` exactly when there is none |
| StrUtils.LastSeparatorIs | libs/glow/src/glow/common/str_utils.hh:21-29 | `minPos` is 0 or the last `/` or `\`, and it is 0 exactly when there is no separator after index 0 |
| StrUtils.EndsWithIff | libs/glow/src/glow/common/str_utils.hh:10-14 | `endswith(s, t)` holds exactly when `s` is some string followed by `t`; every string ends with "" |
| StrUtils.FileEndingShape | libs/glow/src/glow/common/str_utils.hh:16-39 | the ending is "" or a suffix that starts with '.' and has no other dot and no separator; it is non-empty exactly when the file name has a dot after index 0 |
| StrUtils.FileEndingExamples | libs/glow/src/glow/common/str_utils.hh:18-38 | ".png" for "/path/to/myfile.foo.png"; "" for ".png" and "dir.d/file" |
| StrUtils.PathOfShape | libs/glow/src/glow/common/str_utils.hh:55-70 | "" exactly when there is no separator after index 0; otherwise the prefix up to the last separator, without it |
| StrUtils.PathOfExamples | libs/glow/src/glow/common/str_utils.hh:56-70 | "/path/to" for "/path/to/myfile.png"; "" for "/file" and "file" |
| StrUtils.ToLower | libs/glow/src/glow/common/str_utils.hh:41-46 | the copy with every character lower-cased |
| StrUtils.ToUpper | libs/glow/src/glow/common/str_utils.hh:48-53 | the copy with every character upper-cased |
| StrUtils.CaseConversion | libs/glow/src/glow/common/str_utils.hh:40-53 | lengths are kept; only 'A'..'Z' change under lower-casing; both conversions are idempotent and undo each other up to case |

## Left out

- Terrain noise (`FastNoise`, World.cc:160-192) is a parameter `gen`. The model states what `generate` stores, not which terrain the noise makes.
- `addDefaultTextures` and the material fields `textureScale`, `metallic`, `reflectivity` and textures are not modelled. They are file-system lookups and rendering data.
- Logging (`glow::info`, `glow::error`), `GLOW_ACTION` profiling and the `assert`s in `queryBlockMutable` and `markDirty` are not modelled.
- The vertex arrays are not modelled as GPU objects. A mesh is the vertex list `buildMeshFor` assembles.
- Voxel.World.RayCast: `float` arithmetic is modelled on exact reals. The model requires every component of `dir` to be non-zero. With a zero component the source divides by zero and compares infinities or NaN, and the model does not say what it then does. `maxRange` is counted up, as the distance travelled, rather than down.
- RayMath.CastFacts, RayMath.CastStartsInBlock and Game.PlaceIntoAir assume that `rayCast` reports a zero `hitNormal` when its loop runs no iteration. The source leaves `RayHit::hitNormal` without an initializer (World.hh:19, World.cc:285). It is zero only when glm's default constructor zero-initialises vectors (glm up to 0.9.8, or `GLM_FORCE_CTOR_INIT`). From glm 0.9.9 on it is indeterminate in that case.
- `glm::ivec3` components are 32-bit `int`, while `Vec3` is unbounded. The overflow of `c->chunkPos + glm::ivec3(dx, dy, dz) * chunkSize` (World.cc:85) and of `p + glm::ivec3(dx, dy, dz) * rad` (World.cc:240) near plus or minus 2^31 is not modelled. Neither is that of any other coordinate arithmetic.
- The mouse ray itself (`updateViewRay`: camera matrices, `round(mPlayerPos)`, the `float` to `int` conversion of `mRenderDistance`) is not modelled. Its results are parameters.
- Rendering, shadows, the post-processing passes and the window and GUI handling of `Assignment07.cc` are not modelled. So are the other assignments' files.
- Game.OnMouseButton: `mCurrentMaterial` is an `int8_t`. The model keeps it as an unbounded integer, so a picked index outside -128..127 is not wrapped. The lookup of the picked material's name is only logged. When the index is unknown, the source dereferences null there, and the model does not say what happens then.
- `Chunk.hh`, `Block.hh` and `Material.hh` are not part of this model. The model assumes:
  - block storage in flat order `x + 32 y + 1024 z`;
  - `contains`, meaning inside the chunk's cube;
  - `isSolid`, `isTranslucent`, `isAir` as the sign of the material index;
  - a new chunk starts dirty.
- Voxel.Chunk.BuildMeshFor: only the +Z face pushes vertices, as in the source (Chunk.cc:168-171). The other five faces and the quad's fourth corner are commented out there, and the model follows the code, although the comment at Chunk.cc:41 asks for faces of all visible blocks.
- StrUtils.ToLower and StrUtils.ToUpper model `::tolower` and `::toupper` in the "C" locale, ASCII only. Other locales and bytes above 127 are not modelled.

## Findings

| source | as written | input that shows it | evidently intended | confidence | as-written member | corrected member |
|---|---|---|---|---|---|---|
| assignment07/Chunk.cc:161-165 | `buildMeshFor` reads a face's neighbour with the chunk-local `block(n + p)` | the block at local (0, 0, 31) with the +Z normal reads local (0, 0, 32), flat index 32^3, past the chunk's blocks | read the neighbour with a world query, as the comment at Chunk.cc:61 asks, since faces on a chunk border need the adjacent chunk | not executed | Meshing.LocalNeighbourLeavesChunk | Voxel.Chunk.BuildMeshFor |
| assignment07/Chunk.cc:292-301 | `aoAt` returns `0.f` when none of the three samples is solid | three air samples give 0, while one solid diagonal gives 2/3 | an unoccluded corner is fully bright (1) | not executed | Meshing.AoAsWrittenUnoccludedIsDark | Voxel.Chunk.AoAt |
| assignment07/Chunk.cc:290-294 | `aoAt` reads its three samples with the chunk-local `block(pos + ...)` | at local (0, 0, 0) the sample (-1, 1, 0) has the flat index of local (31, 0, 0), a block on the far side of the same chunk, and the sample (0, 1, -1) has a negative flat index | read the samples with world queries, since corners on a chunk border need the adjacent chunk | not executed | Meshing.AoSamplesLeaveChunk | Voxel.Chunk.AoAt |
| assignment07/World.cc:232-249 | `markDirty(p, rad)` calls `ensureChunkAt` and marks the chunk at each of the eight corners `p +- rad`, then at `p +- (rad - 32)`, and so on, while the radius is not negative; World.hh:89 documents it as marking "all blocks in a given radius" | a world that holds the eight corner chunks of `markDirty((15, 15, 15), 17)` (the chunks at -32 and 32 on each axis) and a clean chunk at the origin: the call runs one round, and the chunk at the origin, which holds `p` itself, stays clean | every chunk holding a position within `rad` of `p` on each axis is marked | not executed | Marking.MarkDirtyRadiusGapExisting | Marking.RadiusChunksComplete |

For the `markDirty` row:
- `Marking.RadiusChunks` is the documented set of chunks.
  `Marking.RadiusChunksComplete` and `Marking.RadiusChunksSound` prove that
  it holds exactly the chunks of the positions within the radius.
- `Voxel.World.MarkDirty` keeps the code as written. When a corner chunk
  is missing, `ensureChunkAt` creates it, and its neighbour loop also marks
  the existing chunks next to it. Those chunks may lie outside the radius.
  `Marking.MarkDirtyEffect` states the general case.
- When every corner chunk exists, `Marking.MarkDirtyExisting` proves that
  the call marks exactly the corner chunks. By
  `Marking.MarkDirtyWithinRadius`, these all lie within the radius.
- The one caller passes radius 1 (Assignment07.cc:559). For radius 1,
  `Marking.MarkDirtyRadiusOneExact` proves that the corner chunks are exactly
  the documented set. `Marking.MarkDirtyRadiusOneExisting` proves that,
  on a world holding those chunks, the code marks exactly them.
